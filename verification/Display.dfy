/** The display timer of ffplay: video_refresh decides, picture by picture, whether to wait, show
    or drop, and moves `frame_timer`, the time the current picture was due. */
module Display {
  import opened PacketQueues
  import opened Clocks

  // AV_SYNC_THRESHOLD_MIN, AV_SYNC_THRESHOLD_MAX, AV_SYNC_FRAMEDUP_THRESHOLD, VIDEO_PICTURE_QUEUE_SIZE
  const SYNC_MIN: real := 0.04
  const SYNC_MAX: real := 0.1
  const FRAMEDUP: real := 0.1
  const QUEUE_SIZE: int := 3

  datatype VideoPicture = VideoPicture(pts: Time, duration: real, pos: int, serial: int)
  datatype Master = AudioMaster | VideoMaster | ExternalClock

  function Max(a: real, b: real): real {
    if a > b then a else b
  }

  function Min(a: real, b: real): real {
    if a < b then a else b
  }

  function Minus(a: Time, b: Time): Time {
    if a.At? && b.At? then At(a.t - b.t) else NaN
  }

  function Sum(a: Time, b: Time): Time {
    if a.At? && b.At? then At(a.t + b.t) else NaN
  }

  /** compute_target_delay, given the difference between the video and the master clock. The
      correction goes the way of the difference and never past it, and the delay stays nonnegative;
      it takes up the whole difference, but no more than the delay unless a long picture is to last
      longer; it is left alone exactly when the video is the master, the difference is unknown, too large
      or below the threshold, or there is nothing left to correct. */
  function TargetDelay(delay: real, master: Master, diff: Time, maxFrameDuration: real): (d: real)
    ensures 0.0 <= delay ==>
              && 0.0 <= d
              && (diff.At? && diff.t >= 0.0 ==> 0.0 <= d - delay <= diff.t)
              && (diff.At? && diff.t <= 0.0 ==> diff.t <= d - delay <= 0.0)
              && (diff.At? && d != delay ==>
                    Abs(d - delay) == if (diff.t > 0.0 && delay > 0.1) || Abs(diff.t) < delay then Abs(diff.t) else delay)
              && (d == delay <==>
                    || master.VideoMaster? || diff.NaN? || Abs(diff.t) >= maxFrameDuration
                    || Abs(diff.t) < Max(SYNC_MIN, Min(SYNC_MAX, delay)) || delay == 0.0)
  {
    if master.VideoMaster? || diff.NaN? || Abs(diff.t) >= maxFrameDuration then delay
    else
      var threshold := Max(SYNC_MIN, Min(SYNC_MAX, delay));
      if diff.t <= -threshold then Max(0.0, delay + diff.t)
      else if diff.t >= threshold && delay > FRAMEDUP then delay + diff.t
      else if diff.t >= threshold then 2.0 * delay
      else delay
  }

  /** vp_duration: the time from one picture to the next of the same serial, if that is positive and not
      too long, else the nominal duration; nothing across a change of serial. */
  function VpDuration(vp: VideoPicture, nextvp: VideoPicture, maxFrameDuration: real): (d: real)
    ensures vp.serial != nextvp.serial ==> d == 0.0
    ensures vp.serial == nextvp.serial ==>
              if vp.pts.At? && nextvp.pts.At? && vp.pts.t < nextvp.pts.t <= vp.pts.t + maxFrameDuration
              then vp.pts.t + d == nextvp.pts.t else d == vp.duration
  {
    if vp.serial == nextvp.serial then
      var duration := Minus(nextvp.pts, vp.pts);
      if duration.NaN? || duration.t <= 0.0 || duration.t > maxFrameDuration then vp.duration
      else duration.t
    else 0.0
  }

  // ---------------------------------------------------------------- the timer as a run of steps

  /** The two ways video_refresh moves frame_timer. */
  datatype TimerStep =
    | Restart(time: real)                // the serial changed
    | Advance(delay: real, time: real)   // a picture is due

  function Move(frame_timer: real, step: TimerStep): real {
    match step
    case Restart(time) => time
    case Advance(delay, time) =>
      var t := frame_timer + delay;
      if delay > 0.0 && time - t > SYNC_MAX then time else t
  }

  function Timer(start: real, log: seq<TimerStep>): real {
    if log == [] then start else Move(Timer(start, log[..|log| - 1]), log[|log| - 1])
  }

  function LastTime(t0: real, log: seq<TimerStep>): real {
    if log == [] then t0 else log[|log| - 1].time
  }

  /** Time does not go back, delays are nonnegative and a picture is advanced only when due. */
  predicate Legal(start: real, t0: real, log: seq<TimerStep>) {
    log != [] ==>
      var before, step := log[..|log| - 1], log[|log| - 1];
      && Legal(start, t0, before)
      && LastTime(t0, before) <= step.time
      && (step.Advance? ==> 0.0 <= step.delay && Timer(start, before) + step.delay <= step.time)
  }

  /** Over any run the timer never decreases and never passes the current time. */
  lemma {:induction false} TimerMonotone(start: real, t0: real, log: seq<TimerStep>, i: nat)
    requires start <= t0 && Legal(start, t0, log) && i <= |log|
    ensures Timer(start, log[..i]) <= Timer(start, log) <= LastTime(t0, log)
    decreases |log|
  {
    if i < |log| {
      var before := log[..|log| - 1];
      TimerMonotone(start, t0, before, i);
      TimerMonotone(start, t0, before, |before|);
      assert before[..i] == log[..i] && before[..|before|] == before;
    } else {
      assert log[..i] == log;
      if log != [] {
        var before := log[..|log| - 1];
        TimerMonotone(start, t0, before, 0);
      }
    }
  }

  /** After every picture advanced with a positive delay the timer lags the time read for it by at
      most AV_SYNC_THRESHOLD_MAX, and is not ahead of it. */
  lemma {:induction false} LagBounded(start: real, t0: real, log: seq<TimerStep>, i: nat)
    requires Legal(start, t0, log) && i < |log| && log[i].Advance? && log[i].delay > 0.0
    ensures 0.0 <= log[i].time - Timer(start, log[..i + 1]) <= SYNC_MAX
    decreases |log|
  {
    if i + 1 < |log| {
      LagBounded(start, t0, log[..|log| - 1], i);
      assert log[..|log| - 1][..i + 1] == log[..i + 1];
    } else {
      assert log[..i + 1] == log && log[..i + 1][..i] == log[..i];
    }
  }

  /** A picture that is advanced with a delay at most 0.1 s after its time moves the timer by exactly
      its delay; one that is later makes the timer start again from the time. */
  lemma AdvanceKeepsCadence(start: real, log: seq<TimerStep>, i: nat)
    requires i < |log| && log[i].Advance?
    ensures var due := Timer(start, log[..i]) + log[i].delay;
            Timer(start, log[..i + 1]) == if log[i].delay > 0.0 && log[i].time > due + 0.1 then log[i].time else due
  {
    assert log[..i + 1][..i] == log[..i];
  }

  /** The delays of a run of pictures. */
  function Delays(log: seq<TimerStep>): real {
    if log == [] then 0.0
    else Delays(log[..|log| - 1]) + if log[|log| - 1].Advance? then log[|log| - 1].delay else 0.0
  }

  /** Every picture of the run is advanced no more than 0.1 s after it was due. */
  predicate OnTime(start: real, log: seq<TimerStep>) {
    log != [] ==>
      var before, step := log[..|log| - 1], log[|log| - 1];
      OnTime(start, before) && step.Advance? && step.time <= Timer(start, before) + step.delay + 0.1
  }

  /** Pictures that are on time keep an even cadence: over any run of them the timer is the start plus
      all their delays, whatever the times at which they were shown. */
  lemma {:induction false} EvenCadence(start: real, log: seq<TimerStep>)
    requires OnTime(start, log)
    ensures Timer(start, log) == start + Delays(log)
    decreases |log|
  {
    if log != [] {
      EvenCadence(start, log[..|log| - 1]);
    }
  }

  /** A change of serial makes the timer the time, whatever came before. */
  lemma RestartForgets(start: real, log: seq<TimerStep>)
    requires log != [] && log[|log| - 1].Restart?
    ensures Timer(start, log) == log[|log| - 1].time
  {
  }

  // ---------------------------------------------------------------- the player state

  // what video_refresh does with one picture
  datatype Outcome = Wait(time: real) | Retry | Shown

  /** How one picture moves frame_timer: restarted for a new serial, advanced when the picture is due. */
  predicate Moved(was: seq<TimerStep>, log: seq<TimerStep>, restarts: bool, advances: bool, redisplay: bool) {
    && |log| == |was| + (if restarts then 1 else 0) + (if advances then 1 else 0)
    && was <= log
    && (restarts ==> log[|was|].Restart?)
    && (advances ==> log[|log| - 1].Advance? && (redisplay ==> log[|log| - 1].delay == 0.0))
  }

  /** A new serial restarts the timer, unless an old picture is shown again. */
  predicate Restarts(lastvp: VideoPicture, vp: VideoPicture, redisplay: bool) {
    lastvp.serial != vp.serial && !redisplay
  }

  /** The video clock is set to a new picture that passes, if it has a time, and else left alone. */
  predicate ClockSet(was: ClockValue, c: ClockValue, since: real, till: real, vp: VideoPicture, passes: bool) {
    if passes && vp.pts.At?
    then since <= c.last_updated <= till && c == was.Set(vp.pts, vp.serial, c.last_updated).(paused := c.paused)
    else c == was.(paused := c.paused)
  }

  class VideoState {
    var now: real                   // what av_gettime_relative last returned, in seconds
    const videoq: PacketQueue
    const vidclk: Clock
    const audclk: Clock
    const extclk: Clock
    var has_video: bool
    var has_audio: bool
    var av_sync_type: Master
    var framedrop: int
    var max_frame_duration: real
    var paused: bool
    var step: bool
    var force_refresh: bool
    var read_pause_unsupported: bool  // read_pause_return == AVERROR(ENOSYS)
    var pictq: seq<VideoPicture>
    var pictq_size: int
    var pictq_rindex: int
    var pictq_rindex_shown: int
    var frame_timer: Time
    var frame_drops_late: nat
    var video_current_pos: int
    ghost var start: real           // frame_timer and time when the run began
    ghost var t0: real
    ghost var log: seq<TimerStep>   // how frame_timer moved since

    /** The display part of stream_open: everything zero, the clocks unset. */
    constructor (videoq: PacketQueue, audioq: PacketQueue, av_sync_type: Master, framedrop: int, time: real)
      requires 0.0 <= time
      ensures Valid() && Wired() && fresh(vidclk) && fresh(audclk) && fresh(extclk)
      ensures this.videoq == videoq && frame_timer == At(0.0) && log == [] && !paused && vidclk.pts.NaN?
    {
      now := time;
      this.videoq := videoq;
      vidclk := new Clock(videoq, time);
      audclk := new Clock(audioq, time);
      extclk := new Clock(null, time);
      has_video, has_audio := false, false;
      this.av_sync_type, this.framedrop, max_frame_duration := av_sync_type, framedrop, 0.0;
      paused, step, force_refresh, read_pause_unsupported := false, false, false, false;
      pictq := seq(QUEUE_SIZE, _ => VideoPicture(At(0.0), 0.0, 0, 0));
      pictq_size, pictq_rindex, pictq_rindex_shown := 0, 0, 0;
      frame_timer, frame_drops_late, video_current_pos := At(0.0), 0, 0;
      start, t0, log := 0.0, time, [];
    }

    /** Three clocks, which stand still exactly while the player is paused. The two bases of the video
        clock agree. */
    ghost predicate Wired()
      reads this, vidclk, audclk, extclk
    {
      && vidclk.queue == videoq && extclk.queue == null
      && vidclk != extclk && vidclk != audclk && audclk != extclk
      && vidclk.pts_drift == vidclk.pts.Plus(-vidclk.last_updated)
      && vidclk.paused == paused && audclk.paused == paused && extclk.paused == paused
    }

    /** The picture ring, and a timer that goes by its log unless it is NaN. */
    ghost predicate Valid()
      reads this
    {
      && |pictq| == QUEUE_SIZE && (forall p :: p in pictq ==> 0.0 <= p.duration)
      && 0 <= pictq_rindex < QUEUE_SIZE
      && 0 <= pictq_rindex_shown <= 1 && pictq_rindex_shown <= pictq_size <= QUEUE_SIZE
      && start <= t0 && LastTime(t0, log) <= now
      && Legal(start, t0, log) && (frame_timer.At? ==> frame_timer.t == Timer(start, log))
    }

    function Remaining(): int
      reads this
    {
      pictq_size - pictq_rindex_shown
    }

    /** get_master_sync_type: the clock asked for, or what is left of it without the stream. */
    function MasterType(): (m: Master)
      reads this
      ensures m.VideoMaster? <==> av_sync_type.VideoMaster? && has_video
      ensures m.AudioMaster? <==> (av_sync_type.VideoMaster? && !has_video) || (av_sync_type.AudioMaster? && has_audio)
    {
      match av_sync_type
      case VideoMaster => if has_video then VideoMaster else AudioMaster
      case AudioMaster => if has_audio then AudioMaster else ExternalClock
      case ExternalClock => ExternalClock
    }

    /** av_gettime_relative: any time not before the last one. */
    method GetTime() returns (time: real)
      modifies this`now
      ensures time == now && old(now) <= now
    {
      var d: real := *;
      if d > 0.0 {
        now := now + d;
      }
      time := now;
    }

    /** What get_master_clock shows at `time`. */
    ghost function MasterTime(time: real): Time
      reads this, vidclk, audclk, extclk, vidclk.queue, audclk.queue, extclk.queue
    {
      var c := match MasterType() case VideoMaster => vidclk case AudioMaster => audclk case ExternalClock => extclk;
      c.Model().Get(c.QueueSerial(), time)
    }

    /** get_master_clock */
    method GetMasterClock(time: real) returns (val: Time)
      ensures val == MasterTime(time)
    {
      match MasterType()
      case VideoMaster => val := vidclk.GetClock(time);
      case AudioMaster => val := audclk.GetClock(time);
      case ExternalClock => val := extclk.GetClock(time);
    }

    /** pictq_prev_picture */
    method PrevPicture() returns (ret: bool)
      requires Valid()
      modifies this`pictq_rindex_shown
      ensures Valid() && pictq_rindex_shown == 0 && ret == (old(pictq_rindex_shown) == 1)
    {
      ret := pictq_rindex_shown == 1;
      pictq_rindex_shown := 0;
    }

    /** pictq_next_picture: one picture less remains. */
    method NextPicture()
      requires Valid() && Remaining() > 0
      modifies this`pictq_rindex, this`pictq_size, this`pictq_rindex_shown
      ensures Valid() && Remaining() == old(Remaining()) - 1 && pictq_rindex_shown == 1
      ensures (pictq_rindex + pictq_rindex_shown) % QUEUE_SIZE
           == (old(pictq_rindex) + old(pictq_rindex_shown) + 1) % QUEUE_SIZE
    {
      if pictq_rindex_shown == 0 {
        pictq_rindex_shown := 1;
        return;
      }
      pictq_rindex := pictq_rindex + 1;
      if pictq_rindex == QUEUE_SIZE {
        pictq_rindex := 0;
      }
      pictq_size := pictq_size - 1;
    }

    /** update_video_pts: the video clock is set, then the external clock synchronised to it. */
    method UpdateVideoPts(pts: Time, pos: int, serial: int)
      returns (ghost t: real, ghost t1: real, ghost t2: real, ghost t3: real)
      requires Valid() && Wired()
      modifies this`now, this`video_current_pos, vidclk, extclk
      ensures Valid() && Wired() && old(now) <= t <= t1 <= t2 <= t3 <= now
      ensures vidclk.Model() == old(vidclk.Model()).Set(pts, serial, t)
      ensures extclk.Model() == Synced(old(extclk.Model()), old(extclk.serial), vidclk.Model(), videoq.serial, t1, t2, t3)
      ensures video_current_pos == pos
    {
      var time := GetTime();
      vidclk.SetClock(pts, serial, time);
      var time1 := GetTime();
      var time2 := GetTime();
      var time3 := GetTime();
      extclk.SyncToSlave(vidclk, time1, time2, time3);
      video_current_pos := pos;
      t, t1, t2, t3 := time, time1, time2, time3;
    }

    /** stream_toggle_pause when the player is running: it pauses and leaves frame_timer alone. */
    method Pause() returns (ghost t1: real, ghost t2: real)
      requires Valid() && Wired() && !paused
      modifies this`now, this`paused, audclk, vidclk, extclk
      ensures Valid() && Wired() && paused && old(now) <= t1 <= t2 <= now
      ensures extclk.Model() == Toggle(old(extclk.Model()), t1, t2)
      ensures vidclk.Model() == old(vidclk.Model()).(paused := true)
      ensures audclk.Model() == old(audclk.Model()).(paused := true)
    {
      t1, t2 := RebaseExternal();
      TogglePaused();
    }

    /** stream_toggle_pause when the player is paused. The time since the video clock was set, read at
        `t`, is added to frame_timer, which makes it NaN when that clock has no time. The timer comes
        out ahead of `t` if and only if it was ahead of the time the video clock was set at; else a
        new legal run of the timer starts. */
    method Resume()
      returns (added: Time, ghost t: real, ghost t1: real, ghost t2: real, ghost t3: real, ghost t4: real)
      requires Valid() && Wired() && paused
      modifies this`now, this`paused, this`frame_timer, this`start, this`t0, this`log, audclk, vidclk, extclk
      ensures Wired() && !paused && old(now) <= t <= t1 <= t2 <= t3 <= t4 <= now
      ensures frame_timer == Sum(old(frame_timer), added) && (added.At? <==> old(vidclk.pts).At?)
      ensures added.At? ==> added.t == t - old(vidclk.last_updated)
      ensures frame_timer.At? ==> (frame_timer.t > t <==> old(frame_timer).t > old(vidclk.last_updated))
      ensures frame_timer.NaN? || frame_timer.t <= now ==> Valid()
      ensures var c := old(vidclk.Model()).(paused := read_pause_unsupported);
              vidclk.Model() == c.Set(c.Get(videoq.serial, t1), c.serial, t2).(paused := false)
      ensures extclk.Model() == Toggle(old(extclk.Model()), t3, t4)
      ensures audclk.Model() == old(audclk.Model()).(paused := false)
    {
      var time := GetTime();
      t := time;
      added := Minus(vidclk.pts_drift.Plus(time), vidclk.pts);
      frame_timer := Sum(frame_timer, added);
      t1, t2 := RebaseVideo();
      t3, t4 := RebaseExternal();
      TogglePaused();
      Begin();
    }

    /** A new run of the timer. */
    ghost method Begin()
      modifies this`start, this`t0, this`log
      ensures log == [] && t0 == now && (frame_timer.At? ==> start == frame_timer.t) && (frame_timer.NaN? ==> start == now)
    {
      log := [];
      t0 := now;
      start := if frame_timer.At? then frame_timer.t else now;
    }

    // The last line of stream_toggle_pause.
    method TogglePaused()
      requires vidclk != extclk && vidclk != audclk && audclk != extclk
      modifies this`paused, audclk`paused, vidclk`paused, extclk`paused
      ensures paused == vidclk.paused == audclk.paused == extclk.paused == !old(paused)
    {
      paused := !paused;
      audclk.paused := paused;
      vidclk.paused := paused;
      extclk.paused := paused;
    }

    // The video clock is set to what it shows, running again if the input could be paused.
    method RebaseVideo() returns (ghost t1: real, ghost t2: real)
      requires vidclk.queue == videoq
      modifies this`now, vidclk
      ensures old(now) <= t1 <= t2 <= now
      ensures var c := old(vidclk.Model()).(paused := old(vidclk.paused) && read_pause_unsupported);
              vidclk.Model() == c.Set(c.Get(videoq.serial, t1), c.serial, t2)
    {
      if !read_pause_unsupported {
        vidclk.paused := false;
      }
      var time := GetTime();
      var c := vidclk.GetClock(time);
      var time2 := GetTime();
      vidclk.SetClock(c, vidclk.serial, time2);
      t1, t2 := time, time2;
    }

    // The external clock is set to what it shows.
    method RebaseExternal() returns (ghost t3: real, ghost t4: real)
      requires extclk.queue == null
      modifies this`now, extclk
      ensures old(now) <= t3 <= t4 <= now
      ensures extclk.Model() == Toggle(old(extclk.Model()), t3, t4).(paused := old(extclk.paused))
    {
      var time := GetTime();
      var c := extclk.GetClock(time);
      var time2 := GetTime();
      extclk.SetClock(c, extclk.serial, time2);
      t3, t4 := time, time2;
    }

    /** Adds a step to the log of the timer. */
    ghost method Record(step: TimerStep)
      requires Legal(start, t0, log) && start <= t0 && LastTime(t0, log) <= step.time <= now
      requires step.Advance? ==> 0.0 <= step.delay && Timer(start, log) + step.delay <= step.time
      requires frame_timer == At(Move(Timer(start, log), step))
      modifies this`log
      ensures Legal(start, t0, log) && LastTime(t0, log) <= now && frame_timer == At(Timer(start, log))
      ensures log == old(log) + [step]
    {
      log := log + [step];
      assert log[..|log| - 1] == old(log);
    }

    /** video_refresh without its subtitle, waveform and status parts. Every move of frame_timer
        goes through a legal step, and the retry loop ends because each retry leaves one picture
        less. It ends by waiting for a picture that remains, by showing one, or (`Retry`) with no
        picture left. */
    method VideoRefresh(remaining_time: real) returns (remaining: real, outcome: Outcome)
      requires Valid() && Wired()
      modifies this`force_refresh, this`now, this`paused, this`pictq_size, this`pictq_rindex, this`pictq_rindex_shown,
               this`frame_timer, this`frame_drops_late, this`video_current_pos, this`log, vidclk, audclk, extclk
      ensures Valid() && Wired() && old(log) <= log
      ensures outcome.Wait? ==> Remaining() > 0 && 0.0 < outcome.time && remaining == Min(outcome.time, remaining_time)
      ensures !outcome.Wait? ==> remaining == remaining_time
      ensures outcome.Retry? ==> !has_video || Remaining() == 0
      ensures outcome.Shown? ==> has_video && old(pictq_size) > 0
      ensures force_refresh == (old(force_refresh) && outcome.Wait?)
      ensures paused == (old(paused) || (outcome.Shown? && step))
    {
      remaining, outcome := remaining_time, Retry;
      if has_video {
        var redisplay := false;
        if force_refresh {
          redisplay := PrevPicture();
        }
        outcome := RetryLoop(redisplay);
        if outcome.Wait? {
          remaining := Min(outcome.time, remaining);
          return;
        }
      }
      force_refresh := false;
    }

    // From the label `retry` until a picture waits or is shown, or none remains.
    method RetryLoop(redisplay: bool) returns (outcome: Outcome)
      requires Valid() && Wired()
      modifies this`now, this`paused, this`pictq_size, this`pictq_rindex, this`pictq_rindex_shown, this`frame_timer,
               this`frame_drops_late, this`video_current_pos, this`log, vidclk, audclk, extclk
      ensures Valid() && Wired() && old(log) <= log && pictq_size <= old(pictq_size)
      ensures outcome.Wait? ==> Remaining() > 0 && 0.0 < outcome.time
      ensures outcome.Retry? ==> Remaining() == 0
      ensures outcome.Shown? ==> old(Remaining()) > 0
      ensures paused == (old(paused) || (outcome.Shown? && step))
    {
      outcome := Retry;
      var again := redisplay;
      while outcome.Retry? && Remaining() > 0
        invariant Valid() && Wired() && old(log) <= log && pictq_size <= old(pictq_size)
        invariant outcome.Wait? ==> Remaining() > 0 && 0.0 < outcome.time
        invariant Remaining() <= old(Remaining()) && (outcome.Shown? ==> old(Remaining()) > 0)
        invariant paused == (old(paused) || (outcome.Shown? && step))
        decreases Remaining(), outcome.Retry?
      {
        outcome := RefreshPicture(again);
        again := false;
      }
    }

    /** The picture at offset `k` from the last shown one. */
    function Picture(k: nat): VideoPicture
      requires |pictq| == QUEUE_SIZE && 0 <= pictq_rindex
      reads this
    {
      pictq[(pictq_rindex + k) % QUEUE_SIZE]
    }

    /** The code between the label `retry` and the end of video_refresh, for one picture. */
    method RefreshPicture(redisplay: bool) returns (outcome: Outcome)
      requires Valid() && Wired() && Remaining() > 0
      modifies this`now, this`paused, this`pictq_size, this`pictq_rindex, this`pictq_rindex_shown, this`frame_timer,
               this`frame_drops_late, this`video_current_pos, this`log, vidclk, audclk, extclk
      ensures Valid() && Wired() && old(log) <= log && pictq_size <= old(pictq_size)
      ensures Remaining() == old(Remaining()) - (if outcome.Wait? then 0 else 1)
      ensures outcome.Wait? ==> outcome.time > 0.0 && !redisplay
      ensures old(Picture(pictq_rindex_shown)).serial != videoq.serial
           ==> outcome.Retry? && log == old(log) && frame_timer == old(frame_timer) && video_current_pos == -1
               && frame_drops_late == old(frame_drops_late)
               && vidclk.Model() == old(vidclk.Model()) && extclk.Model() == old(extclk.Model())
      ensures old(Picture(pictq_rindex_shown)).serial == videoq.serial
           ==> Moved(old(log), log, Restarts(old(pictq[pictq_rindex]), old(Picture(pictq_rindex_shown)), redisplay),
                     !old(paused) && !outcome.Wait? && frame_timer.At?, redisplay)
               && (frame_timer.At? <==>
                     || old(frame_timer).At?
                     || Restarts(old(pictq[pictq_rindex]), old(Picture(pictq_rindex_shown)), redisplay))
               && video_current_pos == (if !old(paused) && !outcome.Wait? && !redisplay
                                           && old(Picture(pictq_rindex_shown)).pts.At?
                                        then old(Picture(pictq_rindex_shown)).pos else old(video_current_pos))
               && frame_drops_late == old(frame_drops_late) + (if outcome.Retry? && !redisplay then 1 else 0)
               && ClockSet(old(vidclk.Model()), vidclk.Model(), old(now), now, old(Picture(pictq_rindex_shown)),
                           !old(paused) && !outcome.Wait? && !redisplay)
      ensures forall k :: |old(log)| <= k < |log| && log[k].Restart? ==>
                k == |old(log)| && !redisplay && old(pictq[pictq_rindex]).serial != old(Picture(pictq_rindex_shown)).serial
      ensures old(Picture(pictq_rindex_shown)).serial == videoq.serial != old(pictq[pictq_rindex]).serial && !redisplay
           ==> old(log) + [log[|old(log)|]] <= log && log[|old(log)|].Restart?
      ensures paused == (old(paused) || (outcome.Shown? && step))
    {
      var lastvp := pictq[pictq_rindex];
      var vp := pictq[(pictq_rindex + pictq_rindex_shown) % QUEUE_SIZE];
      assert lastvp in pictq && vp in pictq;
      if vp.serial != videoq.serial {
        NextPicture();
        video_current_pos := -1;
        return Retry;
      }
      outcome := RefreshCurrent(lastvp, vp, redisplay);
    }

    // A picture of the current serial.
    method RefreshCurrent(lastvp: VideoPicture, vp: VideoPicture, redisplay: bool) returns (outcome: Outcome)
      requires Valid() && Wired() && Remaining() > 0 && 0.0 <= lastvp.duration && 0.0 <= vp.duration
      modifies this`now, this`paused, this`pictq_size, this`pictq_rindex, this`pictq_rindex_shown, this`frame_timer,
               this`frame_drops_late, this`video_current_pos, this`log, vidclk, audclk, extclk
      ensures Valid() && Wired() && pictq_size <= old(pictq_size)
      ensures Remaining() == old(Remaining()) - (if outcome.Wait? then 0 else 1)
      ensures outcome.Wait? ==> outcome.time > 0.0 && !redisplay
      ensures Moved(old(log), log, Restarts(lastvp, vp, redisplay),
                    !old(paused) && !outcome.Wait? && frame_timer.At?, redisplay)
      ensures frame_timer.At? <==> old(frame_timer).At? || Restarts(lastvp, vp, redisplay)
      ensures video_current_pos == if !old(paused) && !outcome.Wait? && !redisplay && vp.pts.At? then vp.pos
                                   else old(video_current_pos)
      ensures frame_drops_late == old(frame_drops_late) + (if outcome.Retry? && !redisplay then 1 else 0)
      ensures ClockSet(old(vidclk.Model()), vidclk.Model(), old(now), now, vp, !old(paused) && !outcome.Wait? && !redisplay)
      ensures paused == (old(paused) || (outcome.Shown? && step))
    {
      outcome := Decide(lastvp, vp, redisplay);
      Leave(outcome);
    }

    /** After the decision: a picture that does not wait is left, and stepping pauses after one. */
    method Leave(outcome: Outcome)
      requires Valid() && Wired() && Remaining() > 0
      modifies this`now, this`paused, this`pictq_size, this`pictq_rindex, this`pictq_rindex_shown, vidclk, audclk, extclk
      ensures Valid() && Wired() && old(now) <= now && pictq_size <= old(pictq_size)
      ensures Remaining() == old(Remaining()) - (if outcome.Wait? then 0 else 1)
      ensures paused == (old(paused) || (outcome.Shown? && step))
      ensures vidclk.Model() == old(vidclk.Model()).(paused := vidclk.paused)
    {
      if outcome.Wait? {
        return;
      }
      NextPicture();
      if outcome.Shown? && step && !paused {
        ghost var t1, t2 := Pause();
      }
    }

    /** The timing of a picture of the current serial: too early, shown, or late enough to drop. */
    method Decide(lastvp: VideoPicture, vp: VideoPicture, redisplay: bool) returns (outcome: Outcome)
      requires Valid() && Wired() && Remaining() > 0 && 0.0 <= lastvp.duration && 0.0 <= vp.duration
      modifies this`now, this`frame_timer, this`log, this`frame_drops_late, this`video_current_pos, vidclk, extclk
      ensures Valid() && Wired()
      ensures frame_timer.At? <==> old(frame_timer).At? || Restarts(lastvp, vp, redisplay)
      ensures Moved(old(log), log, Restarts(lastvp, vp, redisplay), !paused && !outcome.Wait? && frame_timer.At?, redisplay)
      ensures video_current_pos == if !paused && !outcome.Wait? && !redisplay && vp.pts.At? then vp.pos
                                   else old(video_current_pos)
      ensures ClockSet(old(vidclk.Model()), vidclk.Model(), old(now), now, vp, !paused && !outcome.Wait? && !redisplay)
      ensures outcome.Wait? ==> outcome.time > 0.0 && !redisplay && !paused
      ensures !outcome.Wait? && !paused && frame_timer.At? ==>
                (outcome.Retry? <==> IsLate(vp, redisplay, log[|log| - 1].time))
      ensures paused || frame_timer.NaN? ==> outcome.Shown?
      ensures frame_drops_late == old(frame_drops_late) + (if outcome.Retry? && !redisplay then 1 else 0)
    {
      if lastvp.serial != vp.serial && !redisplay {
        RestartTimer();
      }
      if paused {
        return Shown;
      }
      outcome := WaitOrPass(lastvp, vp, redisplay);
    }

    /** The picture of a running player: it waits until it is due and then passes, shown or dropped. */
    method WaitOrPass(lastvp: VideoPicture, vp: VideoPicture, redisplay: bool) returns (outcome: Outcome)
      requires Valid() && Wired() && 0.0 <= lastvp.duration
      modifies this`now, this`frame_timer, this`log, this`frame_drops_late, this`video_current_pos, vidclk, extclk
      ensures Valid() && Wired() && old(now) <= now
      ensures frame_timer.At? <==> old(frame_timer).At?
      ensures Moved(old(log), log, false, !outcome.Wait? && frame_timer.At?, redisplay)
      ensures video_current_pos == if !outcome.Wait? && !redisplay && vp.pts.At? then vp.pos else old(video_current_pos)
      ensures ClockSet(old(vidclk.Model()), vidclk.Model(), old(now), now, vp, !outcome.Wait? && !redisplay)
      ensures outcome.Wait? ==> outcome.time > 0.0 && !redisplay
      ensures !outcome.Wait? && frame_timer.At? ==> (outcome.Retry? <==> IsLate(vp, redisplay, log[|log| - 1].time))
      ensures frame_timer.NaN? ==> outcome.Shown?
      ensures frame_drops_late == old(frame_drops_late) + (if outcome.Retry? && !redisplay then 1 else 0)
    {
      var due, time, wait;
      ghost var delay, t1, t2;
      due, time, wait, delay, t1, t2 := Due(lastvp, vp, redisplay);
      if !due {
        return Wait(wait);
      }
      var late := Present(vp, redisplay, time);
      outcome := if late then Retry else Shown;
    }

    /** A picture that is due: the clocks are set, and it is dropped if late. */
    method Present(vp: VideoPicture, redisplay: bool, time: real) returns (late: bool)
      requires Valid() && Wired()
      modifies this`now, this`frame_drops_late, this`video_current_pos, vidclk, extclk
      ensures Valid() && Wired() && late == IsLate(vp, redisplay, time)
      ensures old(now) <= now && ClockSet(old(vidclk.Model()), vidclk.Model(), old(now), now, vp, !redisplay)
      ensures video_current_pos == if !redisplay && vp.pts.At? then vp.pos else old(video_current_pos)
      ensures frame_drops_late == old(frame_drops_late) + (if late && !redisplay then 1 else 0)
    {
      if !redisplay && vp.pts.At? {
        ghost var a, b, c, d := UpdateVideoPts(vp.pts, vp.pos, vp.serial);
      }
      late := Late(vp, redisplay, time);
      if late && !redisplay {
        frame_drops_late := frame_drops_late + 1;
      }
    }

    /** The next picture is due as well, and frames may be dropped: always when a picture is shown again
        or dropping is on, and with the automatic setting unless the video is the master. The last
        picture is never late, nor is any while stepping. */
    predicate IsLate(vp: VideoPicture, redisplay: bool, time: real): (late: bool)
      requires |pictq| == QUEUE_SIZE && 0 <= pictq_rindex && 0 <= pictq_rindex_shown
      reads this
      ensures late ==> pictq_size > pictq_rindex_shown + 1 && !step && frame_timer.At?
      ensures !redisplay && framedrop == 0 ==> !late
      ensures !redisplay && framedrop < 0 && av_sync_type.VideoMaster? && has_video ==> !late
      ensures frame_timer.At? && pictq_size > pictq_rindex_shown + 1 && !step
              && (redisplay || framedrop > 0 || (framedrop < 0 && !(av_sync_type.VideoMaster? && has_video)))
              ==> var next := Picture(pictq_rindex_shown + 1);
                  && (next.serial != vp.serial ==> (late <==> time > frame_timer.t))
                  && (next.serial == vp.serial && vp.pts.At? && next.pts.At?
                      && vp.pts.t < next.pts.t <= vp.pts.t + max_frame_duration ==>
                        (late <==> time - frame_timer.t > next.pts.t - vp.pts.t))
    {
      && Remaining() > 1 && !step && frame_timer.At?
      && (redisplay || framedrop > 0 || (framedrop != 0 && !MasterType().VideoMaster?))
      && time > frame_timer.t + VpDuration(vp, Picture(pictq_rindex_shown + 1), max_frame_duration)
    }

    /** Whether the picture is dropped. */
    method Late(vp: VideoPicture, redisplay: bool, time: real) returns (late: bool)
      requires Valid()
      ensures late == IsLate(vp, redisplay, time)
    {
      late := false;
      if Remaining() > 1 {
        var nextvp := pictq[(pictq_rindex + pictq_rindex_shown + 1) % QUEUE_SIZE];
        var duration := VpDuration(vp, nextvp, max_frame_duration);
        late := !step && (redisplay || framedrop > 0 || (framedrop != 0 && !MasterType().VideoMaster?))
                && frame_timer.At? && time > frame_timer.t + duration;
      }
    }

    /** The first picture after a seek is due at once. */
    method RestartTimer()
      requires Valid()
      modifies this`now, this`frame_timer, this`log
      ensures Valid() && old(now) <= now && frame_timer == At(now) && log == old(log) + [Restart(now)]
    {
      var time := GetTime();
      frame_timer := At(time);
      Record(Restart(time));
    }

    /** compute_target_delay, with the video clock read at `t1` and the master clock at `t2`. */
    method ComputeTargetDelay(delay: real) returns (target: real, ghost t1: real, ghost t2: real)
      requires Valid() && Wired()
      modifies this`now
      ensures Valid() && Wired() && old(now) <= t1 <= t2 <= now
      ensures target == TargetDelay(delay, MasterType(), Minus(vidclk.Model().Get(videoq.serial, t1), MasterTime(t2)),
                                    max_frame_duration)
    {
      var time1 := GetTime();
      var c := vidclk.GetClock(time1);
      var time2 := GetTime();
      var m := GetMasterClock(time2);
      target := TargetDelay(delay, MasterType(), Minus(c, m), max_frame_duration);
      t1, t2 := time1, time2;
    }

    /** Whether the picture is due, and if so the move of frame_timer; otherwise the time to wait.
        `delay` is the one computed from the clocks read at `t1` and `t2`. With a timer that is NaN
        every picture is due. */
    method Due(lastvp: VideoPicture, vp: VideoPicture, redisplay: bool)
      returns (due: bool, time: real, wait: real, ghost delay: real, ghost t1: real, ghost t2: real)
      requires Valid() && Wired() && 0.0 <= lastvp.duration
      modifies this`now, this`frame_timer, this`log
      ensures Valid() && Wired() && time == now && old(now) <= t1 <= t2 <= time
      ensures delay == if redisplay then 0.0
                       else TargetDelay(VpDuration(lastvp, vp, max_frame_duration), MasterType(),
                                        Minus(vidclk.Model().Get(videoq.serial, t1), MasterTime(t2)), max_frame_duration)
      ensures due <==> redisplay || old(frame_timer).NaN? || old(frame_timer).t + delay <= time
      ensures !due ==> 0.0 < wait == old(frame_timer).t + delay - time
      ensures frame_timer.At? <==> old(frame_timer).At?
      ensures log == if due && frame_timer.At? then old(log) + [Advance(delay, time)] else old(log)
    {
      var last_duration := VpDuration(lastvp, vp, max_frame_duration);
      var target := 0.0;
      t1, t2 := now, now;
      if !redisplay {
        target, t1, t2 := ComputeTargetDelay(last_duration);
      }
      delay := target;
      due, time, wait := AdvanceTimer(target, redisplay);
    }

    // From the second reading of the time on.
    method AdvanceTimer(delay: real, redisplay: bool) returns (due: bool, time: real, wait: real)
      requires Valid() && 0.0 <= delay && (redisplay ==> delay == 0.0)
      modifies this`now, this`frame_timer, this`log
      ensures Valid() && old(now) <= time == now
      ensures due <==> redisplay || old(frame_timer).NaN? || old(frame_timer).t + delay <= time
      ensures !due ==> 0.0 < wait == old(frame_timer).t + delay - time
      ensures frame_timer.At? <==> old(frame_timer).At?
      ensures log == if due && frame_timer.At? then old(log) + [Advance(delay, time)] else old(log)
    {
      TimerMonotone(start, t0, log, 0);
      time := GetTime();
      wait := 0.0;
      due := true;
      if frame_timer.At? {
        var next := frame_timer.t + delay;
        if time < next && !redisplay {
          due, wait := false, next - time;
          return;
        }
        if delay > 0.0 && time - next > SYNC_MAX {
          next := time;
        }
        frame_timer := At(next);
        Record(Advance(delay, time));
      }
    }
  }

  /** A player that is paused and resumed before it showed a picture has no timer any more. */
  method PausedBeforeVideo(videoq: PacketQueue, audioq: PacketQueue, time: real) returns (player: VideoState)
    requires 0.0 <= time
    ensures !player.paused && player.frame_timer.NaN?
  {
    player := new VideoState(videoq, audioq, AudioMaster, 0, time);
    var _, _ := player.Pause();
    var _, _, _, _, _, _ := player.Resume();
  }
}
