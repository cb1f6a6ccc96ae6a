/** The clocks of ffplay. A clock is a base value, the time it was set, and a speed; it is read by
    extrapolation. NaN is a value of its own, times and speeds are reals. */
module Clocks {
  import opened PacketQueues

  datatype Time = NaN | At(t: real) {
    function Plus(d: real): Time {
      if NaN? then NaN else At(t + d)
    }
  }

  // EXTERNAL_CLOCK_SPEED_MIN, _MAX, _STEP; MIN_FRAMES; AV_NOSYNC_THRESHOLD
  const SPEED_MIN: real := 0.9
  const SPEED_MAX: real := 1.01
  const SPEED_STEP: real := 0.001
  const MIN_FRAMES: int := 5
  const NOSYNC_THRESHOLD: real := 10.0

  function Abs(x: real): real {
    if x < 0.0 then -x else x
  }

  /** The fields of a `Clock` that its reading depends on. */
  datatype ClockValue = ClockValue(pts: Time, pts_drift: Time, last_updated: real, speed: real, serial: int, paused: bool) {

    /** get_clock at `time` of a clock whose queue has serial `queueSerial`. */
    function Get(queueSerial: int, time: real): Time {
      if queueSerial != serial then NaN
      else if paused then pts
      else pts_drift.Plus(time - (time - last_updated) * (1.0 - speed))
    }

    /** set_clock_at */
    function Set(p: Time, s: int, time: real): ClockValue {
      this.(pts := p, last_updated := time, pts_drift := p.Plus(-time), serial := s)
    }
  }

  class Clock {
    var pts: Time
    var pts_drift: Time
    var last_updated: real
    var speed: real
    var serial: int
    var paused: bool
    const queue: PacketQueue?  // whose serial makes the clock obsolete; null for the clock's own

    ghost function Model(): ClockValue
      reads this
    {
      ClockValue(pts, pts_drift, last_updated, speed, serial, paused)
    }

    function QueueSerial(): int
      reads this, queue
    {
      if queue == null then serial else queue.serial
    }

    /** init_clock */
    constructor (queue: PacketQueue?, time: real)
      ensures this.queue == queue && Model() == ClockValue(NaN, NaN, time, 1.0, -1, false)
    {
      this.queue := queue;
      speed, paused := 1.0, false;
      pts, last_updated, pts_drift, serial := NaN, time, NaN, -1;
    }

    method GetClock(time: real) returns (r: Time)
      ensures r == Model().Get(QueueSerial(), time)
    {
      if QueueSerial() != serial {
        return NaN;
      }
      if paused {
        return pts;
      }
      r := pts_drift.Plus(time - (time - last_updated) * (1.0 - speed));
    }

    method SetClock(p: Time, s: int, time: real)
      modifies this
      ensures Model() == old(Model()).Set(p, s, time)
    {
      pts := p;
      last_updated := time;
      pts_drift := p.Plus(-time);
      serial := s;
    }

    /** set_clock_speed reads the time twice, once in get_clock and once in set_clock. */
    method SetClockSpeed(speed: real, t1: real, t2: real)
      modifies this
      ensures Model() == SetSpeed(old(Model()), old(QueueSerial()), speed, t1, t2)
    {
      var c := GetClock(t1);
      SetClock(c, serial, t2);
      this.speed := speed;
    }

    /** sync_clock_to_slave: resynchronised only when it has no value or is too far off. */
    method SyncToSlave(slave: Clock, t1: real, t2: real, t3: real)
      requires slave != this
      modifies this
      ensures Model() == Synced(old(Model()), old(QueueSerial()), old(slave.Model()), old(slave.QueueSerial()), t1, t2, t3)
    {
      var clock := GetClock(t1);
      var slaveClock := slave.GetClock(t2);
      if slaveClock.At? && (clock.NaN? || Abs(clock.t - slaveClock.t) > NOSYNC_THRESHOLD) {
        SetClock(slaveClock, slave.serial, t3);
      }
    }

    /** check_external_clock_speed on the external clock. A stream index below 0 means no stream. */
    method CheckExternalClockSpeed(video_stream: int, videoPackets: int, audio_stream: int, audioPackets: int,
                                   t1: real, t2: real)
      requires queue == null
      modifies this
      ensures Model() == Check(old(Model()), Fill(video_stream, videoPackets, audio_stream, audioPackets), t1, t2)
    {
      if (video_stream >= 0 && videoPackets <= MIN_FRAMES / 2) || (audio_stream >= 0 && audioPackets <= MIN_FRAMES / 2) {
        var s := speed - SPEED_STEP;
        SetClockSpeed(if SPEED_MIN > s then SPEED_MIN else s, t1, t2);
      } else if (video_stream < 0 || videoPackets > MIN_FRAMES * 2) && (audio_stream < 0 || audioPackets > MIN_FRAMES * 2) {
        var s := speed + SPEED_STEP;
        SetClockSpeed(if SPEED_MAX > s then s else SPEED_MAX, t1, t2);
      } else {
        var s := speed;
        if s != 1.0 {
          UnitStep(1.0 - s);
          SetClockSpeed(s + SPEED_STEP * (1.0 - s) / Abs(1.0 - s), t1, t2);
        }
      }
    }
  }

  lemma UnitStep(x: real)
    requires x != 0.0
    ensures SPEED_STEP * x / Abs(x) == if x > 0.0 then SPEED_STEP else -SPEED_STEP
  {
    var q := SPEED_STEP * x / Abs(x);
    assert q * Abs(x) == SPEED_STEP * x;
    if x > 0.0 {
      assert (q - SPEED_STEP) * x == 0.0;
    } else {
      assert (q + SPEED_STEP) * x == 0.0;
    }
  }

  function SetSpeed(c: ClockValue, queueSerial: int, speed: real, t1: real, t2: real): ClockValue {
    c.Set(c.Get(queueSerial, t1), c.serial, t2).(speed := speed)
  }

  /** A clock resynchronised to a slave when it has no value or is too far off. */
  function Synced(c: ClockValue, queueSerial: int, slave: ClockValue, slaveSerial: int,
                  t1: real, t2: real, t3: real): ClockValue
  {
    var now, want := c.Get(queueSerial, t1), slave.Get(slaveSerial, t2);
    if want.At? && (now.NaN? || Abs(now.t - want.t) > NOSYNC_THRESHOLD) then c.Set(want, slave.serial, t3) else c
  }

  /** A clock that was set shows that time when it is read at once, goes on at its speed unless it is
      paused, and shows no time to a queue of another serial. */
  lemma SetThenGet(c: ClockValue, p: Time, serial: int, time: real, queueSerial: int, later: real)
    ensures var c' := c.Set(p, serial, time);
            && c'.speed == c.speed && c'.paused == c.paused
            && c'.Get(queueSerial, later) == if queueSerial != serial then NaN
                                             else p.Plus(if c.paused then 0.0 else c.speed * (later - time))
    ensures c.Set(p, serial, time).Get(serial, time) == p
  {
    Elapsed(c.speed, later - time);
    assert (time - time) * (1.0 - c.speed) == 0.0;
  }

  lemma Elapsed(speed: real, d: real)
    ensures d - d * (1.0 - speed) == speed * d
  {
  }

  /** sync_clock_to_slave leaves a clock that goes by its own serial as it is when the slave has no time
      or both were read within 10 seconds of each other; otherwise the clock takes over the slave's
      serial and, at the time it is set, shows the slave's time. */
  lemma SyncedIsClose(c: ClockValue, slave: ClockValue, slaveSerial: int, t1: real, t2: real, t3: real)
    ensures var c', was, want := Synced(c, c.serial, slave, slaveSerial, t1, t2, t3), c.Get(c.serial, t1),
                                 slave.Get(slaveSerial, t2);
            if want.NaN? || (was.At? && want.t - 10.0 <= was.t <= want.t + 10.0) then c' == c
            else c'.serial == slave.serial && c'.speed == c.speed && c'.paused == c.paused && c'.Get(c'.serial, t3) == want
  {
    SetThenGet(c, slave.Get(slaveSerial, t2), slave.serial, t3, slave.serial, t3);
  }

  datatype Fullness = Low | Middle | High

  function Fill(video_stream: int, videoPackets: int, audio_stream: int, audioPackets: int): Fullness {
    if (video_stream >= 0 && videoPackets <= 2) || (audio_stream >= 0 && audioPackets <= 2) then Low
    else if (video_stream >= 0 && videoPackets <= 10) || (audio_stream >= 0 && audioPackets <= 10) then Middle
    else High
  }

  /** The speed the external clock gets: one thousandth towards the bound or towards 1. */
  function NextSpeed(speed: real, fill: Fullness): real {
    match fill
    case Low => if speed - 0.001 < 0.9 then 0.9 else speed - 0.001
    case High => if speed + 0.001 > 1.01 then 1.01 else speed + 0.001
    case Middle => if speed < 1.0 then speed + 0.001 else if speed > 1.0 then speed - 0.001 else speed
  }

  function Check(c: ClockValue, fill: Fullness, t1: real, t2: real): ClockValue {
    if fill == Middle && c.speed == 1.0 then c
    else SetSpeed(c, c.serial, NextSpeed(c.speed, fill), t1, t2)
  }

  /** What happens to the external clock between two resynchronisations. Each step that sets it
      reads the time at `t1` and again at `t2`. */
  datatype Event =
    | CheckSpeed(fill: Fullness, t1: real, t2: real)
    | TogglePause(t1: real, t2: real)

  /** stream_toggle_pause, as far as the external clock goes. */
  function Toggle(c: ClockValue, t1: real, t2: real): ClockValue {
    var c' := c.Set(c.Get(c.serial, t1), c.serial, t2);
    c'.(paused := !c.paused)
  }

  function Apply(c: ClockValue, e: Event): ClockValue {
    match e
    case CheckSpeed(fill, t1, t2) => Check(c, fill, t1, t2)
    case TogglePause(t1, t2) => Toggle(c, t1, t2)
  }

  function ApplyAll(c: ClockValue, run: seq<Event>): ClockValue
    decreases |run|
  {
    if run == [] then c else ApplyAll(Apply(c, run[0]), run[1..])
  }

  /** The times of a run, from `from` to `to`, never go back. */
  predicate Ordered(from: real, run: seq<Event>, to: real)
    decreases |run|
  {
    if run == [] then from <= to
    else from <= run[0].t1 <= run[0].t2 && Ordered(run[0].t2, run[1..], to)
  }

  /** How long the clock was not paused between `from` and `to`. */
  function Running(c: ClockValue, from: real, run: seq<Event>, to: real): real
    decreases |run|
  {
    if run == [] then (if c.paused then 0.0 else to - from)
    else (if c.paused then 0.0 else run[0].t2 - from) + Running(Apply(c, run[0]), run[0].t2, run[1..], to)
  }

  /** The time that passes, unpaused, between the two readings of the steps that set the clock. */
  function Lost(c: ClockValue, run: seq<Event>): real
    decreases |run|
  {
    if run == [] then 0.0
    else (if c.paused || (run[0].CheckSpeed? && run[0].fill == Middle && c.speed == 1.0) then 0.0
          else run[0].t2 - run[0].t1) + Lost(Apply(c, run[0]), run[1..])
  }

  /** Set and not obsolete: the two bases agree and the speed is in range. */
  predicate Steady(c: ClockValue) {
    c.pts.At? && c.pts_drift == At(c.pts.t - c.last_updated) && SPEED_MIN <= c.speed <= SPEED_MAX
  }

  /** Read at `t`, a steady clock shows its base plus speed times the time since it was set. */
  lemma SteadyGet(c: ClockValue, t: real)
    requires Steady(c)
    ensures c.Get(c.serial, t) == At(c.pts.t + (if c.paused then 0.0 else c.speed * (t - c.last_updated)))
  {
    if !c.paused {
      assert (t - c.last_updated) * (1.0 - c.speed) == (t - c.last_updated) - c.speed * (t - c.last_updated);
    }
  }

  /** A step that sets the clock is continuous up to the time between its two readings: what is
      shown at `t2` is what was shown at `t1`. */
  lemma ApplyIsContinuous(c: ClockValue, e: Event)
    requires Steady(c) && e.t1 <= e.t2
    ensures Steady(Apply(c, e))
    ensures var c' := Apply(c, e);
            c' == c || (c'.last_updated == e.t2 && c'.Get(c'.serial, e.t2) == c.Get(c.serial, e.t1))
  {
    SteadyGet(c, e.t1);
    var c' := Apply(c, e);
    if c' != c {
      SteadyGet(c', e.t2);
    }
  }

  /** So the clock jumps at the time it is set, by what it would have advanced since it was read,
      unless it stands still, is read once, or is not set at all. */
  lemma SeamlessIff(c: ClockValue, e: Event)
    requires Steady(c) && e.t1 <= e.t2
    ensures Apply(c, e).Get(c.serial, e.t2) == c.Get(c.serial, e.t2) <==>
            c.paused || e.t1 == e.t2 || (e.CheckSpeed? && e.fill == Middle && c.speed == 1.0)
  {
    if !(e.CheckSpeed? && e.fill == Middle && c.speed == 1.0) {
      SetShowsReading(c, e);
      Advances(c, e.t1, e.t2);
    }
  }

  /** A clock that is paused at 6 after it was read at 5 falls back by one second. */
  lemma FallsBack(c: ClockValue)
    requires c == ClockValue(At(10.0), At(10.0), 0.0, 1.0, 0, false)
    ensures Steady(c) && c.Get(0, 6.0) == At(16.0) && Apply(c, TogglePause(5.0, 6.0)).Get(0, 6.0) == At(15.0)
  {
    SteadyGet(c, 6.0);
    SteadyGet(c, 5.0);
  }

  // A step that sets the clock makes it show at `t2` what it showed at `t1`.
  lemma SetShowsReading(c: ClockValue, e: Event)
    requires Steady(c) && !(e.CheckSpeed? && e.fill == Middle && c.speed == 1.0)
    ensures Apply(c, e).Get(c.serial, e.t2) == c.Get(c.serial, e.t1)
  {
    SteadyGet(c, e.t1);
    var c' := Apply(c, e);
    assert c'.last_updated == e.t2 && c'.serial == c.serial && c'.pts == c.Get(c.serial, e.t1);
    assert (e.t2 - e.t2) * (1.0 - c'.speed) == 0.0;
  }

  // What a clock shows changes with time exactly while it is not paused.
  lemma Advances(c: ClockValue, t: real, t': real)
    requires Steady(c) && t <= t'
    ensures c.Get(c.serial, t) == c.Get(c.serial, t') <==> c.paused || t == t'
  {
    Stretch(c, t, t');
  }

  /** Over any run between resynchronisations the external clock advances by at least 0.9 and at
      most 1.01 times the unpaused time, less at most what passes between the two time readings of
      its own updates. With one reading per step (`t1 == t2`) nothing is lost. */
  lemma {:induction false} ClockAdvance(c: ClockValue, from: real, run: seq<Event>, to: real)
    requires Steady(c) && c.last_updated <= from && Ordered(from, run, to)
    ensures var c' := ApplyAll(c, run);
            var was, now := c.Get(c.serial, from), c'.Get(c'.serial, to);
            && was.At? && now.At?
            && 0.9 * (Running(c, from, run, to) - Lost(c, run)) <= now.t - was.t
            && now.t - was.t <= 1.01 * Running(c, from, run, to)
    decreases |run|
  {
    if run == [] {
      Stretch(c, from, to);
    } else {
      OneEvent(c, from, run[0]);
      ApplyIsContinuous(c, run[0]);
      ClockAdvance(Apply(c, run[0]), run[0].t2, run[1..], to);
      assert Lost(c, run) == Lost(c, [run[0]]) + Lost(Apply(c, run[0]), run[1..]);
    }
  }

  // How far the clock advances over one event.
  lemma OneEvent(c: ClockValue, from: real, e: Event)
    requires Steady(c) && c.last_updated <= from <= e.t1 <= e.t2
    ensures var c' := Apply(c, e);
            var was, now := c.Get(c.serial, from), c'.Get(c'.serial, e.t2);
            var d := if c.paused then 0.0 else e.t2 - from;
            was.At? && now.At? && 0.9 * (d - Lost(c, [e])) <= now.t - was.t <= 1.01 * d
  {
    ApplyIsContinuous(c, e);
    Stretch(c, from, e.t1);
    Stretch(c, from, e.t2);
  }

  // How far a clock that is not touched advances.
  lemma Stretch(c: ClockValue, t: real, t': real)
    requires Steady(c) && t <= t'
    ensures var d := if c.paused then 0.0 else t' - t;
            var was, now := c.Get(c.serial, t), c.Get(c.serial, t');
            was.At? && now.At? && 0.9 * d <= now.t - was.t <= 1.01 * d
  {
    SteadyGet(c, t);
    SteadyGet(c, t');
    if !c.paused {
      var a, b := t - c.last_updated, t' - c.last_updated;
      Distribute(c.speed, a, b);
      assert c.Get(c.serial, t').t - c.Get(c.serial, t).t == c.speed * b - c.speed * a && b - a == t' - t;
    }
  }

  lemma Distribute(speed: real, a: real, b: real)
    requires 0.9 <= speed <= 1.01 && a <= b
    ensures 0.9 * (b - a) <= speed * b - speed * a <= 1.01 * (b - a)
  {
    Product(speed - 0.9, b - a);
    Product(1.01 - speed, b - a);
  }

  lemma Product(x: real, y: real)
    requires 0.0 <= x && 0.0 <= y
    ensures 0.0 <= x * y
  {
  }

  lemma {:induction false} NothingLost(c: ClockValue, run: seq<Event>)
    requires forall e :: e in run ==> e.t1 == e.t2
    ensures Lost(c, run) == 0.0
    decreases |run|
  {
    if run != [] {
      assert run[0] in run;
      NothingLost(Apply(c, run[0]), run[1..]);
    }
  }

  // ---------------------------------------------------------------- the speed

  /** Every speed the external clock takes is a whole number of thousandths around 1. */
  predicate OnGrid(speed: real, k: int) {
    -100 <= k <= 10 && speed == 1.0 + k as real / 1000.0
  }

  function NextK(k: int, fill: Fullness): int {
    match fill
    case Low => if k > -100 then k - 1 else k
    case High => if k < 10 then k + 1 else k
    case Middle => if k < 0 then k + 1 else if k > 0 then k - 1 else k
  }

  lemma SpeedStep(speed: real, k: int, fill: Fullness)
    requires OnGrid(speed, k)
    ensures OnGrid(NextSpeed(speed, fill), NextK(k, fill))
  {
  }

  /** In any run that starts at a speed of 1 + k/1000 the speed stays such a number. */
  lemma {:induction false} SpeedStaysOnGrid(c: ClockValue, run: seq<Event>, k: int) returns (k': int)
    requires OnGrid(c.speed, k)
    ensures OnGrid(ApplyAll(c, run).speed, k')
    decreases |run|
  {
    if run == [] {
      return k;
    }
    var e := run[0];
    if e.CheckSpeed? {
      SpeedStep(c.speed, k, e.fill);
      k' := SpeedStaysOnGrid(Apply(c, e), run[1..], NextK(k, e.fill));
    } else {
      k' := SpeedStaysOnGrid(Apply(c, e), run[1..], k);
    }
  }

  function AbsInt(k: int): nat {
    if k < 0 then -k else k
  }

  /** The queues decide where the speed goes: a starved queue, with 2 packets or less, slows the clock
      down by a thousandth; when every queue has more than 10 it speeds up by one; and in between it
      goes one thousandth towards 1. It stops at 0.9 and at 1.01. */
  lemma SpeedFollowsQueues(speed: real, k: int, video: int, videoPackets: int, audio: int, audioPackets: int)
    requires OnGrid(speed, k)
    ensures var starved := (video >= 0 && videoPackets <= 2) || (audio >= 0 && audioPackets <= 2);
            var full := (video >= 0 ==> videoPackets > 10) && (audio >= 0 ==> audioPackets > 10);
            var k' := if starved then (if k == -100 then k else k - 1)
                      else if full then (if k == 10 then k else k + 1)
                      else if k == 0 then 0 else if k < 0 then k + 1 else k - 1;
            OnGrid(NextSpeed(speed, Fill(video, videoPackets, audio, audioPackets)), k')
  {
  }

  /** While a queue is starved the speed falls to 0.9 and stays there, while all are full it rises to
      1.01 and stays there, one thousandth a check. */
  lemma {:induction false} SpeedReachesBound(c: ClockValue, run: seq<Event>, k: int, fill: Fullness)
    requires OnGrid(c.speed, k) && fill != Middle
    requires forall e :: e in run ==> e.CheckSpeed? && e.fill == fill
    ensures OnGrid(ApplyAll(c, run).speed,
                   if fill == Low then (if k - |run| < -100 then -100 else k - |run|)
                   else if k + |run| > 10 then 10 else k + |run|)
    decreases |run|
  {
    if run != [] {
      assert run[0] in run;
      SpeedStep(c.speed, k, fill);
      SpeedReachesBound(Apply(c, run[0]), run[1..], NextK(k, fill), fill);
    }
  }

  /** Pausing and resuming alternate, whatever happens to the speed in between; only they do. */
  lemma {:induction false} PauseAlternates(c: ClockValue, run: seq<Event>)
    ensures ApplyAll(c, run).paused == (c.paused != (Toggles(run) % 2 == 1))
    decreases |run|
  {
    if run != [] {
      PauseAlternates(Apply(c, run[0]), run[1..]);
    }
  }

  function Toggles(run: seq<Event>): nat {
    if run == [] then 0 else (if run[0].TogglePause? then 1 else 0) + Toggles(run[1..])
  }

  /** With the queues at a middle level the speed is exactly 1 after |k| checks, not before, and
      stays there. */
  lemma {:induction false} SpeedRelaxes(c: ClockValue, run: seq<Event>, k: int)
    requires OnGrid(c.speed, k)
    requires forall e :: e in run ==> e.CheckSpeed? && e.fill == Middle
    ensures ApplyAll(c, run).speed == 1.0 <==> |run| >= AbsInt(k)
    decreases |run|
  {
    if run != [] {
      assert run[0] in run;
      SpeedStep(c.speed, k, Middle);
      SpeedRelaxes(Apply(c, run[0]), run[1..], NextK(k, Middle));
    }
  }
}
