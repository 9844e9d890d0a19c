/** The full-screen loader shown while a page loads. While visible, one
    interval adds a random step of 2 to 14 points to the progress every
    120 ms and stops at 100; another rotates through four messages every
    1500 ms. Hiding it resets both.

    `Math.random()` is a parameter `r` of each progress tick, with
    `0 <= r < 1`; progress is an exact rational. */
module Loader {

  const MESSAGES: seq<string> :=
    ["Loading...", "Preparing experience...", "Almost ready...", "Just a moment..."]

  /** The prop value that asks for the rotating messages. */
  const DEFAULT_MESSAGE: string := "Loading..."

  const PROGRESS_INCREMENT: real := 12.0

  /** A value `Math.random()` can return. */
  predicate IsRandom(r: real) {
    0.0 <= r < 1.0
  }

  predicate AllRandom(rs: seq<real>) {
    forall i :: 0 <= i < |rs| ==> IsRandom(rs[i])
  }

  // ---------------------------------------------------------------------
  // Progress
  // ---------------------------------------------------------------------

  /** One tick of the progress interval: a step of `r * 12 + 2`, capped at
      100. */
  function NextProgress(p: real, r: real): (q: real)
    requires IsRandom(r)
    ensures q <= 100.0
    ensures q == 100.0 || p + 2.0 <= q < p + 14.0
    ensures p <= q || p > 100.0
    ensures q == 100.0 <==> p + r * PROGRESS_INCREMENT + 2.0 >= 100.0
  {
    var next := p + r * PROGRESS_INCREMENT + 2.0;
    if next >= 100.0 then 100.0 else next
  }

  /** The progress after the ticks `rs`, oldest first. */
  function ProgressAfter(p: real, rs: seq<real>): real
    requires AllRandom(rs)
    decreases |rs|
  {
    if rs == [] then p else ProgressAfter(NextProgress(p, rs[0]), rs[1..])
  }

  function Min(a: real, b: real): real {
    if a <= b then a else b
  }

  /** Each tick adds at least 2 points until 100 is reached. */
  lemma {:induction false} ProgressLowerBound(p: real, rs: seq<real>)
    requires AllRandom(rs) && p <= 100.0
    ensures ProgressAfter(p, rs) >= Min(p + 2.0 * |rs| as real, 100.0)
    ensures ProgressAfter(p, rs) <= 100.0
    decreases |rs|
  {
    if rs != [] {
      var q := NextProgress(p, rs[0]);
      assert AllRandom(rs[1..]);
      ProgressLowerBound(q, rs[1..]);
    }
  }

  /** Each tick adds less than 14 points. */
  lemma {:induction false} ProgressUpperBound(p: real, rs: seq<real>)
    requires AllRandom(rs) && p <= 100.0
    ensures ProgressAfter(p, rs) <= p + 14.0 * |rs| as real
    decreases |rs|
  {
    if rs != [] {
      var q := NextProgress(p, rs[0]);
      assert AllRandom(rs[1..]);
      ProgressUpperBound(q, rs[1..]);
    }
  }

  /** Once at 100, progress stays there. */
  lemma {:induction false} ProgressStaysFull(rs: seq<real>)
    requires AllRandom(rs)
    ensures ProgressAfter(100.0, rs) == 100.0
    decreases |rs|
  {
    if rs != [] {
      assert AllRandom(rs[1..]);
      ProgressStaysFull(rs[1..]);
    }
  }

  /** Progress never goes down from one tick to the next. */
  lemma {:induction false} ProgressMonotone(p: real, rs: seq<real>, k: nat)
    requires AllRandom(rs) && p <= 100.0 && k <= |rs|
    ensures AllRandom(rs[..k])
    ensures p <= ProgressAfter(p, rs[..k]) <= ProgressAfter(p, rs)
    decreases k
  {
    if k > 0 {
      var q := NextProgress(p, rs[0]);
      assert AllRandom(rs[1..]);
      ProgressMonotone(q, rs[1..], k - 1);
      assert rs[..k][0] == rs[0];
      assert rs[..k][1..] == rs[1..][..k - 1];
    } else {
      ProgressLowerBound(p, rs);
    }
  }

  /** From 0, the bar is full after at most 50 ticks (6 seconds), whatever
      the random numbers, and never before 8 ticks (960 ms). */
  lemma FillTime(rs: seq<real>)
    requires AllRandom(rs)
    ensures |rs| >= 50 ==> ProgressAfter(0.0, rs) == 100.0
    ensures |rs| <= 7 ==> ProgressAfter(0.0, rs) < 100.0
  {
    ProgressLowerBound(0.0, rs);
    ProgressUpperBound(0.0, rs);
  }

  // ---------------------------------------------------------------------
  // Display values
  // ---------------------------------------------------------------------

  /** The message shown: the caller's own message, or the rotating one
      when the caller left the default. */
  function CurrentMessage(message: string, messageIndex: nat): (m: string)
    requires messageIndex < |MESSAGES|
    ensures m in MESSAGES || m == message
    ensures m == message <==> (message != DEFAULT_MESSAGE || messageIndex == 0)
  {
    if message != DEFAULT_MESSAGE then message else MESSAGES[messageIndex]
  }

  /** The bar's width, in percent. */
  function BarWidth(progress: real): (w: real)
    ensures w <= 100.0 && (w == progress || w == 100.0)
  {
    if progress <= 100.0 then progress else 100.0
  }

  /** The number printed under the bar: `Math.floor(progress)`. */
  function Label(progress: real): int {
    progress.Floor
  }

  /** For any progress the loader reaches, the label is a whole percentage
      that reads 100 exactly when the bar is full, and the bar's width is
      the progress itself. */
  lemma DisplayRange(progress: real)
    requires 0.0 <= progress <= 100.0
    ensures 0 <= Label(progress) <= 100
    ensures Label(progress) == 100 <==> progress == 100.0
    ensures BarWidth(progress) == progress
    ensures Label(progress) as real <= progress < Label(progress) as real + 1.0
  {
  }

  // ---------------------------------------------------------------------
  // The component's state
  // ---------------------------------------------------------------------

  class GlobalLoader {
    var isVisible: bool       // the prop
    var visibleRef: bool      // `isVisibleRef.current`
    var progress: real
    var messageIndex: nat
    var progressTimer: bool   // the progress interval is scheduled
    var messageTimer: bool    // the message interval is scheduled

    ghost predicate Valid()
      reads this
    {
      && 0.0 <= progress <= 100.0
      && messageIndex < |MESSAGES|
      && visibleRef == isVisible
      && (progressTimer <==> isVisible && progress < 100.0)
      && (messageTimer <==> isVisible)
      && (!isVisible ==> progress == 0.0 && messageIndex == 0)
    }

    /** Mounting: both counters at 0, both intervals scheduled when the
        loader starts visible. */
    constructor (isVisible: bool)
      ensures Valid()
      ensures this.isVisible == isVisible && progress == 0.0 && messageIndex == 0
      ensures progressTimer == isVisible && messageTimer == isVisible
    {
      this.isVisible := isVisible;
      visibleRef := isVisible;
      progress := 0.0;
      messageIndex := 0;
      progressTimer := isVisible;
      messageTimer := isVisible;
    }

    /** A render with a new `isVisible` prop and the effects it triggers.
        An unchanged prop re-runs no effect; hiding clears both intervals
        and resets both counters; showing schedules both intervals. */
    method SetVisible(v: bool)
      requires Valid()
      modifies this
      ensures Valid() && isVisible == v
      ensures v == old(isVisible) ==>
        progress == old(progress) && messageIndex == old(messageIndex)
        && progressTimer == old(progressTimer) && messageTimer == old(messageTimer)
      ensures v != old(isVisible) ==> progress == 0.0 && messageIndex == 0
      ensures v != old(isVisible) ==> progressTimer == v && messageTimer == v
    {
      if v == isVisible {
        return;
      }
      isVisible := v;
      visibleRef := v;
      progressTimer := false;
      messageTimer := false;
      if !v {
        progress := 0.0;
        messageIndex := 0;
        return;
      }
      progressTimer := true;
      messageTimer := true;
    }

    /** One firing of the progress interval, with `r` the value of
        `Math.random()`; nothing happens when no interval is scheduled. */
    method ProgressTick(r: real)
      requires Valid() && IsRandom(r)
      modifies this
      ensures Valid()
      ensures isVisible == old(isVisible) && messageIndex == old(messageIndex)
      ensures messageTimer == old(messageTimer)
      ensures progress == (if old(progressTimer) then NextProgress(old(progress), r) else old(progress))
      ensures old(progressTimer) ==> old(progress) < progress
      ensures progressTimer <==> old(progressTimer) && progress < 100.0
    {
      if !progressTimer || !visibleRef {
        return;
      }
      var newProgress := progress + r * PROGRESS_INCREMENT + 2.0;
      var capped := if newProgress <= 100.0 then newProgress else 100.0;
      if capped >= 100.0 {
        progressTimer := false;
        progress := 100.0;
      } else {
        progress := capped;
      }
    }

    /** One firing of the message interval: the next message, wrapping
        after the last. */
    method MessageTick()
      requires Valid()
      modifies this
      ensures Valid()
      ensures isVisible == old(isVisible) && progress == old(progress)
      ensures progressTimer == old(progressTimer) && messageTimer == old(messageTimer)
      ensures messageIndex == (if old(messageTimer) then (old(messageIndex) + 1) % |MESSAGES| else old(messageIndex))
    {
      if !messageTimer || !visibleRef {
        return;
      }
      messageIndex := (messageIndex + 1) % |MESSAGES|;
    }
  }

  /** Driving the loader with a run of progress ticks leaves it at the
      progress the fold predicts. */
  method RunProgress(loader: GlobalLoader, rs: seq<real>)
    requires loader.Valid() && loader.isVisible && AllRandom(rs)
    modifies loader
    ensures loader.Valid() && loader.isVisible
    ensures loader.progress == ProgressAfter(old(loader.progress), rs)
    ensures loader.messageIndex == old(loader.messageIndex)
  {
    var i := 0;
    while i < |rs|
      invariant 0 <= i <= |rs|
      invariant loader.Valid() && loader.isVisible
      invariant loader.messageIndex == old(loader.messageIndex)
      invariant AllRandom(rs[i..])
      invariant ProgressAfter(loader.progress, rs[i..]) == ProgressAfter(old(loader.progress), rs)
    {
      assert rs[i..][1..] == rs[i + 1..];
      if loader.progress == 100.0 {
        ProgressStaysFull(rs[i + 1..]);
        ProgressStaysFull(rs[i..]);
      }
      loader.ProgressTick(rs[i]);
      i := i + 1;
    }
  }
}
