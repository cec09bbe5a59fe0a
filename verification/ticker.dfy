/** The animation clock every scene reads (`useTicker` in src/utils/hooks.js).
    The hook keeps the simulation time `t` and the timestamp `last` of the
    previous frame, in milliseconds; each animation frame with timestamp `now`
    adds the elapsed seconds scaled by `speed`. The host's frame scheduling is
    not modelled: frames arrive as an explicit sequence of timestamps. */
module Ticker {

  datatype Clock = Clock(t: real, last: real)

  /** Mounting the hook: `t` starts at 0 and `last` is the current time. */
  function Mount(now: real): (c: Clock)
    ensures c.t == 0.0
    ensures forall speed, frames :: |frames| > 0 ==>
      Run(c, speed, frames).t == speed * (frames[|frames| - 1] - now) / 1000.0
  {
    Clock(0.0, now)
  }

  /** One animation frame. There is no clamp on the elapsed time, so a
      timestamp earlier than `last` moves `t` backwards when `speed` is positive. */
  function Frame(c: Clock, speed: real, now: real): (c': Clock)
    ensures c'.last == now
    ensures speed > 0.0 && now >= c.last ==> c'.t >= c.t
    ensures speed > 0.0 && now < c.last ==> c'.t < c.t
    ensures speed == 0.0 || now == c.last ==> c'.t == c.t
  {
    var dt := (now - c.last) / 1000.0;
    Clock(c.t + dt * speed, now)
  }

  /** A change of `speed` re-runs the effect: a fresh `last` is sampled but
      the accumulated `t` is kept, because the state lives outside the effect. */
  function Restart(c: Clock, now: real): (c': Clock)
    ensures c'.t == c.t && c'.last == now
    ensures forall speed :: Frame(c', speed, now) == c'
  {
    Clock(c.t, now)
  }

  /** The frames delivered at the timestamps `frames`, in order. The simulation
      time telescopes: it grows by `speed` times the seconds between the
      starting `last` and the final timestamp, whatever happened in between. */
  function Run(c: Clock, speed: real, frames: seq<real>): (r: Clock)
    decreases |frames|
    ensures |frames| == 0 ==> r == c
    ensures |frames| > 0 ==> r.last == frames[|frames| - 1]
    ensures |frames| > 0 ==> r.t == c.t + speed * (frames[|frames| - 1] - c.last) / 1000.0
  {
    if |frames| == 0 then c
    else
      var c1 := Frame(c, speed, frames[0]);
      var r := Run(c1, speed, frames[1..]);
      assert |frames| > 1 ==> r.t == c1.t + speed * (frames[|frames| - 1] - frames[0]) / 1000.0;
      Elapsed(speed, c.last, frames[0]);
      Telescope(speed, c.last, frames[0], frames[|frames| - 1]);
      r
  }

  /** The same frames delivered by an explicit loop, as the host's frame
      callback does, one timestamp at a time. */
  method RunLoop(c: Clock, speed: real, frames: seq<real>) returns (r: Clock)
    ensures |frames| == 0 ==> r == c
    ensures |frames| > 0 ==> r.last == frames[|frames| - 1]
    ensures r.t == c.t + speed * (r.last - c.last) / 1000.0
  {
    r := c;
    var i := 0;
    while i < |frames|
      invariant 0 <= i <= |frames|
      invariant i == 0 ==> r == c
      invariant i > 0 ==> r.last == frames[i - 1]
      invariant r.t == c.t + speed * (r.last - c.last) / 1000.0
    {
      var prev := r;
      r := Frame(r, speed, frames[i]);
      Elapsed(speed, prev.last, frames[i]);
      Telescope(speed, c.last, prev.last, frames[i]);
      i := i + 1;
    }
  }

  /** Frame sequences compose: running `a` and then `b` is running `a + b`. */
  lemma {:induction false} RunAppend(c: Clock, speed: real, a: seq<real>, b: seq<real>)
    ensures Run(c, speed, a + b) == Run(Run(c, speed, a), speed, b)
    decreases |a|
  {
    if |a| == 0 {
      assert a + b == b;
    } else {
      assert (a + b)[1..] == a[1..] + b;
      RunAppend(Frame(c, speed, a[0]), speed, a[1..], b);
    }
  }

  /** Chunking invariance: an interval delivered as two frames ends in the
      same state as the interval delivered as a single frame. */
  lemma SplitFrame(c: Clock, speed: real, mid: real, now: real)
    ensures Frame(Frame(c, speed, mid), speed, now) == Frame(c, speed, now)
  {
    Elapsed(speed, c.last, mid);
    Elapsed(speed, mid, now);
    Elapsed(speed, c.last, now);
    Telescope(speed, c.last, mid, now);
  }

  /** A frame's increment `dt * speed`, with dt the elapsed seconds. */
  lemma Elapsed(speed: real, from: real, to: real)
    ensures (to - from) / 1000.0 * speed == speed * (to - from) / 1000.0
  {
  }

  /** The scaled time from a to c is the scaled time from a to b plus that from b to c. */
  lemma Telescope(speed: real, a: real, b: real, c: real)
    ensures speed * (c - a) / 1000.0 == speed * (b - a) / 1000.0 + speed * (c - b) / 1000.0
  {
  }

  /** Timestamps that never go backwards, starting from `last`. */
  predicate NonDecreasing(last: real, frames: seq<real>) {
    (|frames| > 0 ==> last <= frames[0])
    && forall i :: 0 < i < |frames| ==> frames[i - 1] <= frames[i]
  }

  /** With a positive speed and non-decreasing timestamps, `t` never decreases
      and `last` never moves backwards. */
  lemma {:induction false} RunMonotone(c: Clock, speed: real, frames: seq<real>)
    requires speed > 0.0 && NonDecreasing(c.last, frames)
    ensures Run(c, speed, frames).t >= c.t
    ensures Run(c, speed, frames).last >= c.last
    decreases |frames|
  {
    if |frames| > 0 {
      var c1 := Frame(c, speed, frames[0]);
      assert NonDecreasing(c1.last, frames[1..]);
      RunMonotone(c1, speed, frames[1..]);
    }
  }

  /** A speed change in the middle of a run: the time accumulated before the
      change survives, and the new speed applies from the fresh `last`. */
  lemma {:induction false} SpeedChangeKeepsTime(c: Clock, s1: real, a: seq<real>, s2: real, restartAt: real, b: seq<real>)
    requires |a| > 0 && |b| > 0
    ensures Run(Restart(Run(c, s1, a), restartAt), s2, b).t
         == c.t + s1 * (a[|a| - 1] - c.last) / 1000.0 + s2 * (b[|b| - 1] - restartAt) / 1000.0
  {
  }

  /** Three frames of half a second each at speed 1 give t = 1.5; at speed 2, t = 3. */
  lemma HalfSecondFrames(start: real)
    ensures Run(Mount(start), 1.0, [start + 500.0, start + 1000.0, start + 1500.0]).t == 1.5
    ensures Run(Mount(start), 2.0, [start + 500.0, start + 1000.0, start + 1500.0]).t == 3.0
  {
  }
}
