/** The count-up hook of the home page's statistics: once active, every
    animation frame shows `floor(target * (1 - (1 - p)^4))`, where `p` is the
    elapsed fraction of `duration` (capped at 1), and the last frame shows
    `target` exactly.

    Timestamps and the duration are taken as whole milliseconds. This is an
    idealisation: frame timestamps can be fractional, but the curve depends
    only on the ratio of elapsed time to duration, and scaling both by a
    power of ten makes them whole. The curve is then computed exactly:
    `Eased` is the integer form, and `EasedIsFloorOfCurve` shows that it is
    the floor of the curve evaluated on exact rationals. */
module CountUp {
  import opened Wrappers

  /** The duration used when the caller gives none. */
  const DEFAULT_DURATION: int := 2000

  function Pow4(x: int): (r: int)
    ensures r >= 0 && (x != 0 ==> r > 0)
  {
    var sq := x * x;
    assert sq >= 0;
    sq * sq
  }

  function Pow4Real(x: real): real {
    x * x * x * x
  }

  /** `Math.min(elapsed / duration, 1)`, on exact rationals. */
  function Progress(elapsed: int, duration: int): (p: real)
    requires duration > 0
    ensures p <= 1.0
    ensures elapsed >= 0 ==> 0.0 <= p
    ensures p == 1.0 <==> elapsed >= duration
  {
    var q := elapsed as real / duration as real;
    if q < 1.0 then q else 1.0
  }

  /** The eased count in integer arithmetic: elapsed time is capped at
      `duration`, and `(1 - p)^4` is `(duration - elapsed)^4 / duration^4`. */
  function Eased(target: int, elapsed: int, duration: int): int
    requires duration > 0
  {
    var e := Capped(elapsed, duration);
    target * (Pow4(duration) - Pow4(duration - e)) / Pow4(duration)
  }

  /** The elapsed time, capped at the duration. */
  function Capped(elapsed: int, duration: int): int {
    if elapsed < duration then elapsed else duration
  }

  // ---------------------------------------------------------------------
  // The integer form is the floor of the curve
  // ---------------------------------------------------------------------

  lemma FloorOfQuotient(n: int, d: int)
    requires d > 0
    ensures (n as real / d as real).Floor == n / d
  {
    var q, r := n / d, n % d;
    assert n == q * d + r && 0 <= r < d;
    assert n as real / d as real == q as real + r as real / d as real;
    assert 0.0 <= r as real / d as real < 1.0;
  }

  lemma Pow4OfQuotient(a: int, b: int)
    requires b > 0
    ensures Pow4Real(a as real / b as real) == Pow4(a) as real / Pow4(b) as real
  {
    var q := a as real / b as real;
    var br := b as real;
    assert q * br == a as real;
    assert Pow4(a) as real == (a as real) * (a as real) * (a as real) * (a as real);
    assert Pow4(b) as real == br * br * br * br;
    calc {
      Pow4Real(q) * (Pow4(b) as real);
      (q * q * q * q) * (br * br * br * br);
      (q * br) * (q * br) * (q * br) * (q * br);
      (a as real) * (a as real) * (a as real) * (a as real);
    }
  }

  lemma OneMinus(e: int, d: int)
    requires d > 0
    ensures 1.0 - e as real / d as real == (d - e) as real / d as real
  {
    var dr := d as real;
    assert dr / dr == 1.0;
    assert (d - e) as real / dr == dr / dr - e as real / dr;
  }

  lemma ShareAsQuotient(target: int, x: int, d4: int)
    requires d4 > 0
    ensures target as real * (1.0 - x as real / d4 as real)
         == (target * (d4 - x)) as real / d4 as real
  {
    OneMinus(x, d4);
    var dr := d4 as real;
    assert target as real * ((d4 - x) as real / dr) == (target as real * (d4 - x) as real) / dr;
  }

  /** `(1 - progress)^4` as a quotient of two integers. */
  lemma RemainingPow4(elapsed: int, duration: int)
    requires duration > 0
    ensures Pow4Real(1.0 - Progress(elapsed, duration))
         == Pow4(duration - Capped(elapsed, duration)) as real / Pow4(duration) as real
  {
    var e := Capped(elapsed, duration);
    var p := Progress(elapsed, duration);
    assert 1.0 - p == (duration - e) as real / duration as real by {
      assert p == e as real / duration as real;
      OneMinus(e, duration);
    }
    Pow4OfQuotient(duration - e, duration);
  }

  /** The frame value is `floor(target * (1 - (1 - progress)^4))` with
      `progress = min(elapsed / duration, 1)`, computed exactly. */
  lemma EasedIsFloorOfCurve(target: int, elapsed: int, duration: int)
    requires duration > 0
    ensures Eased(target, elapsed, duration)
         == (target as real * (1.0 - Pow4Real(1.0 - Progress(elapsed, duration)))).Floor
  {
    var x, d4 := Pow4(duration - Capped(elapsed, duration)), Pow4(duration);
    RemainingPow4(elapsed, duration);
    ShareAsQuotient(target, x, d4);
    FloorOfQuotient(target * (d4 - x), d4);
  }

  // ---------------------------------------------------------------------
  // Properties of the curve
  // ---------------------------------------------------------------------

  lemma Pow4Monotone(a: int, b: int)
    requires 0 <= a <= b
    ensures Pow4(a) <= Pow4(b)
  {
    MulMono(a, a, b);
    MulMono(b, a, b);
    var sa, sb := a * a, b * b;
    MulMono(sa, sa, sb);
    MulMono(sb, sa, sb);
  }

  lemma MulMono(c: int, a: int, b: int)
    requires c >= 0
    ensures a <= b ==> c * a <= c * b
  {
    if a <= b {
      assert c * b - c * a == c * (b - a);
    }
  }

  lemma DivMonotone(x: int, y: int, d: int)
    requires d > 0 && x <= y
    ensures x / d <= y / d
  {
    var qx, qy := x / d, y / d;
    assert d * qx <= x;
    assert y < d * qy + d;
    MulMono(d, qy + 1, qx);
    assert d * (qy + 1) == d * qy + d;
  }

  lemma MulDivCancel(t: int, d: int)
    requires d > 0
    ensures t * d / d == t
  {
    var q := t * d / d;
    assert d * q <= t * d < d * q + d;
    MulMono(d, q + 1, t);
    MulMono(d, t + 1, q);
    assert d * (q + 1) == d * q + d;
    assert d * (t + 1) == t * d + d;
  }

  /** `target * (d4 - x) / d4` for `0 <= x <= d4`: within [0, target], and
      larger for smaller `x`. */
  lemma ScaledShare(target: int, d4: int, x1: int, x2: int)
    requires target >= 0 && d4 > 0 && 0 <= x2 <= x1 <= d4
    ensures 0 <= target * (d4 - x1) / d4 <= target * (d4 - x2) / d4 <= target
  {
    MulMono(target, 0, d4 - x1);
    MulMono(target, d4 - x1, d4 - x2);
    MulMono(target, d4 - x2, d4);
    DivMonotone(0, target * (d4 - x1), d4);
    DivMonotone(target * (d4 - x1), target * (d4 - x2), d4);
    DivMonotone(target * (d4 - x2), target * d4, d4);
    MulDivCancel(target, d4);
    assert target * d4 == d4 * target;
  }

  /** The first frame, with nothing elapsed, shows 0. */
  lemma EasedAtStart(target: int, duration: int)
    requires duration > 0
    ensures Eased(target, 0, duration) == 0
  {
    var d4 := Pow4(duration);
    assert Capped(0, duration) == 0;
    assert target * (d4 - d4) == 0;
  }

  /** From the duration on, the frame value is exactly `target`. */
  lemma EasedAtEnd(target: int, elapsed: int, duration: int)
    requires duration > 0 && elapsed >= duration
    ensures Eased(target, elapsed, duration) == target
  {
    var d4 := Pow4(duration);
    assert Pow4(duration - duration) == 0;
    MulDivCancel(target, d4);
  }

  /** For a non-negative target, every frame value lies in [0, target]. */
  lemma EasedBounds(target: int, elapsed: int, duration: int)
    requires duration > 0 && target >= 0 && elapsed >= 0
    ensures 0 <= Eased(target, elapsed, duration) <= target
  {
    var e := Capped(elapsed, duration);
    Pow4Monotone(duration - e, duration);
    ScaledShare(target, Pow4(duration), Pow4(duration - e), Pow4(duration - e));
  }

  /** For a non-negative target, the frame value never decreases as the
      elapsed time grows. */
  lemma EasedMonotone(target: int, e1: int, e2: int, duration: int)
    requires duration > 0 && target >= 0 && 0 <= e1 <= e2
    ensures Eased(target, e1, duration) <= Eased(target, e2, duration)
  {
    var c1, c2 := Capped(e1, duration), Capped(e2, duration);
    Pow4Monotone(duration - c2, duration - c1);
    Pow4Monotone(duration - c1, duration);
    ScaledShare(target, Pow4(duration), Pow4(duration - c1), Pow4(duration - c2));
  }

  // ---------------------------------------------------------------------
  // Frames
  // ---------------------------------------------------------------------

  /** The start time once a frame at `currentTime` has run: the time of the
      first frame of the run. */
  function StartAfter(startTime: Option<int>, currentTime: int): int {
    match startTime
    case None => currentTime
    case Some(t) => t
  }

  /** The count a frame leaves: the eased value while progress is below 1,
      `target` once it reaches 1. */
  function FrameCount(target: int, duration: int, start: int, currentTime: int): int
    requires duration > 0
  {
    if currentTime - start < duration then Eased(target, currentTime - start, duration) else target
  }

  /** Frames of one run, in time order, never show a smaller count than an
      earlier frame (non-negative target). */
  lemma FrameCountMonotone(target: int, duration: int, start: int, t1: int, t2: int)
    requires duration > 0 && target >= 0 && start <= t1 <= t2
    ensures FrameCount(target, duration, start, t1) <= FrameCount(target, duration, start, t2)
    ensures 0 <= FrameCount(target, duration, start, t2) <= target
  {
    EasedMonotone(target, t1 - start, t2 - start, duration);
    EasedBounds(target, t1 - start, duration);
    EasedBounds(target, t2 - start, duration);
  }

  /** The start time after a run of frames at `times`. */
  function LatchedStart(times: seq<int>): Option<int> {
    if times == [] then None
    else Some(StartAfter(LatchedStart(times[..|times| - 1]), times[|times| - 1]))
  }

  /** The start time is the first frame's time, whatever frames follow. */
  lemma {:induction false} LatchedStartIsFirstFrame(times: seq<int>)
    requires |times| > 0
    ensures LatchedStart(times) == Some(times[0])
  {
    if |times| > 1 {
      var init := times[..|times| - 1];
      LatchedStartIsFirstFrame(init);
      assert init[0] == times[0];
    }
  }

  /** `if (!startTime) startTime = currentTime;` as written: JavaScript treats
      both `undefined` and the timestamp 0 as unset. */
  function StartAfterAsWritten(startTime: Option<int>, currentTime: int): int {
    match startTime
    case None => currentTime
    case Some(t) => if t == 0 then currentTime else t
  }

  function LatchedStartAsWritten(times: seq<int>): Option<int> {
    if times == [] then None
    else Some(StartAfterAsWritten(LatchedStartAsWritten(times[..|times| - 1]), times[|times| - 1]))
  }

  /** As written, a first frame at timestamp 0 does not fix the start: the
      second frame becomes the start, so with a 1000 ms duration and target
      100 the frame at 1000 ms shows 0 and asks for more frames where it
      should show 100 and stop. */
  lemma ZeroTimestampRestartsAnimation()
    ensures LatchedStartAsWritten([0, 1000]) == Some(1000)
    ensures LatchedStart([0, 1000]) == Some(0)
    ensures FrameCount(100, 1000, 1000, 1000) == 0
    ensures FrameCount(100, 1000, 0, 1000) == 100
  {
    assert [0, 1000][..1] == [0];
    assert [0][..0] == [];
    EasedAtStart(100, 1000);
  }

  // ---------------------------------------------------------------------
  // The hook's state, updated frame by frame
  // ---------------------------------------------------------------------

  class CountAnimation {
    var target: int                // the props of the latest run
    var duration: int
    var count: int                 // the `count` state cell
    var startTime: Option<int>     // the effect's local `startTime`
    var framePending: bool         // an animation frame has been requested
    ghost var lastFrame: int       // the time of the latest frame of the run

    ghost predicate Valid()
      reads this
    {
      && duration > 0
      && (startTime.Some? ==>
            startTime.value <= lastFrame
            && count == FrameCount(target, duration, startTime.value, lastFrame))
    }

    /** Mounting the hook: the count starts at 0 and nothing is scheduled. */
    constructor (target: int, duration: int)
      requires duration > 0
      ensures this.target == target && this.duration == duration
      ensures Valid() && count == 0 && startTime == None && !framePending
    {
      this.target := target;
      this.duration := duration;
      count := 0;
      startTime := None;
      framePending := false;
      lastFrame := 0;
    }

    /** Mounting the hook without a duration: `duration = 2000`. */
    constructor WithDefaultDuration(target: int)
      ensures this.target == target && this.duration == DEFAULT_DURATION
      ensures Valid() && count == 0 && startTime == None && !framePending
    {
      this.target := target;
      duration := DEFAULT_DURATION;
      count := 0;
      startTime := None;
      framePending := false;
      lastFrame := 0;
    }

    /** The effect body, run on mount and whenever `target`, `isActive` or
        `duration` changes: when active, a new run begins with the given
        target and duration and its first frame requested; when inactive,
        nothing is scheduled or changed, and a run in progress keeps the
        target and duration it started with. */
    method Activate(target: int, isActive: bool, duration: int)
      requires Valid() && duration > 0
      modifies this
      ensures Valid() && count == old(count) && lastFrame == old(lastFrame)
      ensures isActive ==>
        this.target == target && this.duration == duration
        && startTime == None && framePending
      ensures !isActive ==>
        this.target == old(this.target) && this.duration == old(this.duration)
        && startTime == old(startTime) && framePending == old(framePending)
    {
      if !isActive {
        return;
      }
      this.target := target;
      this.duration := duration;
      startTime := None;
      framePending := true;
    }

    /** `animate(currentTime)`: one animation frame. Frame times of a run
        never go backwards. */
    method Animate(currentTime: int)
      requires Valid() && framePending
      requires startTime.Some? ==> lastFrame <= currentTime
      modifies this
      ensures Valid() && target == old(target) && duration == old(duration)
      ensures lastFrame == currentTime
      ensures startTime == Some(StartAfter(old(startTime), currentTime))
      ensures count == FrameCount(target, duration, startTime.value, currentTime)
      ensures framePending <==> currentTime - startTime.value < duration
      ensures old(startTime).None? ==> count == 0 && framePending
      ensures target >= 0 ==> 0 <= count <= target
      ensures target >= 0 && old(startTime).Some? ==> old(count) <= count
      ensures currentTime - startTime.value >= duration ==> count == target
    {
      if startTime.None? {
        startTime := Some(currentTime);
        EasedAtStart(target, duration);
      } else if target >= 0 {
        FrameCountMonotone(target, duration, startTime.value, lastFrame, currentTime);
      }
      var elapsed := currentTime - startTime.value;
      var progress := Progress(elapsed, duration);
      count := Eased(target, elapsed, duration);
      if progress < 1.0 {
        framePending := true;
      } else {
        count := target;
        framePending := false;
      }
      lastFrame := currentTime;
      if target >= 0 {
        FrameCountMonotone(target, duration, startTime.value, currentTime, currentTime);
      }
    }
  }

  /** A run driven from outside: the effect starts it, the first frame at
      `t0` shows 0, and a frame once the duration has passed shows `target`
      and requests nothing more. */
  method RunToEnd(c: CountAnimation, target: int, duration: int, t0: int, t1: int)
    requires c.Valid() && duration > 0 && t0 + duration <= t1
    modifies c
    ensures c.Valid() && c.target == target && c.duration == duration
    ensures c.startTime == Some(t0) && c.count == target && !c.framePending
  {
    c.Activate(target, true, duration);
    c.Animate(t0);
    assert c.count == 0 && c.framePending;
    c.Animate(t1);
  }
}
