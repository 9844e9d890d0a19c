/** The typewriter hook of the home page: it types a phrase one character
    per timer tick, waits, deletes it one character per tick, then moves on
    to the next phrase and its colour, forever.

    `Step` is what one call of the hook's `updateText` does to the four state
    cells, together with the delay it asks the timer for; `TypewriterHook`
    holds the cells and updates them in place. */
module Typewriter {
  import opened Wrappers

  /** The configuration object handed to the hook. */
  datatype Config = Config(
    texts: seq<string>,
    speed: nat,        // delay after typing a character or moving to the next phrase
    deleteSpeed: nat,  // delay after deleting a character
    pause: nat,        // how long a finished phrase stays before deleting starts
    colors: seq<string>)

  /** `colors[i]`, which is `undefined` (here `None`) past the end of the array. */
  function ColorAt(colors: seq<string>, i: nat): Option<string> {
    if i < |colors| then Some(colors[i]) else None
  }

  /** The hook's state cells `displayText`, `currentIndex`, `isDeleting`, `currentColor`. */
  datatype State = State(displayText: string, currentIndex: nat, isDeleting: bool, currentColor: Option<string>)

  /** The effect of one tick: the new state and the delay requested before the next tick. */
  datatype Tick = Tick(next: State, delay: nat)

  /** The state at mount: nothing shown, first phrase, typing, first colour. */
  function Initial(cfg: Config): State {
    State("", 0, false, ColorAt(cfg.colors, 0))
  }

  /** Typing (or about to type) phrase `i`, with `text` shown in phrase `i`'s colour. */
  function Typing(cfg: Config, i: nat, text: string): State {
    State(text, i, false, ColorAt(cfg.colors, i))
  }

  /** Deleting phrase `i`, with `text` shown in phrase `i`'s colour. */
  function Deleting(cfg: Config, i: nat, text: string): State {
    State(text, i, true, ColorAt(cfg.colors, i))
  }

  /** What every reachable state satisfies: the index names a phrase, the text
      shown is a prefix of that phrase, and the colour is that phrase's colour. */
  ghost predicate Inv(cfg: Config, s: State) {
    && s.currentIndex < |cfg.texts|
    && s.displayText <= cfg.texts[s.currentIndex]
    && s.currentColor == ColorAt(cfg.colors, s.currentIndex)
  }

  /** `s.slice(0, -1)`: everything but the last character; empty stays empty. */
  function DropLast(s: string): (r: string)
    ensures |s| > 0 ==> r + [s[|s| - 1]] == s
    ensures |s| == 0 ==> r == []
  {
    if |s| == 0 then s else s[..|s| - 1]
  }

  /** One call of `updateText`. */
  function Step(cfg: Config, s: State): (t: Tick)
    requires s.currentIndex < |cfg.texts|
    ensures t.next.currentIndex < |cfg.texts|
  {
    var currentText := cfg.texts[s.currentIndex];
    if s.isDeleting then
      var text := DropLast(s.displayText);
      if |s.displayText| == 0 then
        var nextIndex := (s.currentIndex + 1) % |cfg.texts|;
        Tick(State(text, nextIndex, false, ColorAt(cfg.colors, nextIndex)), cfg.speed)
      else
        Tick(s.(displayText := text), cfg.deleteSpeed)
    else if |s.displayText| < |currentText| then
      Tick(s.(displayText := currentText[..|s.displayText| + 1]), cfg.speed)
    else
      // the switch to deleting happens when the `pause` timer fires
      Tick(s.(isDeleting := true), cfg.pause)
  }

  /** The four things a tick can do, on a state that satisfies the invariant. */
  lemma StepCases(cfg: Config, s: State)
    requires Inv(cfg, s)
    ensures var t := Step(cfg, s); var phrase := cfg.texts[s.currentIndex];
      && (!s.isDeleting && |s.displayText| < |phrase| ==>
            t == Tick(s.(displayText := s.displayText + [phrase[|s.displayText|]]), cfg.speed))
      && (!s.isDeleting && |s.displayText| >= |phrase| ==>
            s.displayText == phrase && t == Tick(s.(isDeleting := true), cfg.pause))
      && (s.isDeleting && s.displayText != [] ==>
            t.next.displayText + [s.displayText[|s.displayText| - 1]] == s.displayText
            && t == Tick(s.(displayText := t.next.displayText), cfg.deleteSpeed))
      && (s.isDeleting && s.displayText == [] ==>
            t == Tick(Typing(cfg, (s.currentIndex + 1) % |cfg.texts|, ""), cfg.speed))
  {
    var phrase := cfg.texts[s.currentIndex];
    if !s.isDeleting && |s.displayText| < |phrase| {
      assert phrase[..|s.displayText| + 1] == s.displayText + [phrase[|s.displayText|]];
    }
  }

  /** Every tick keeps the invariant. */
  lemma StepKeepsInv(cfg: Config, s: State)
    requires Inv(cfg, s)
    ensures Inv(cfg, Step(cfg, s).next)
  {
    var phrase := cfg.texts[s.currentIndex];
    var n := Step(cfg, s).next;
    if s.isDeleting && s.displayText != [] {
      assert n.displayText == s.displayText[..|s.displayText| - 1];
    }
  }

  /** The invariant holds at mount. */
  lemma InitialInv(cfg: Config)
    requires |cfg.texts| > 0
    ensures Inv(cfg, Initial(cfg)) && Initial(cfg) == Typing(cfg, 0, "")
  {
  }

  /** With at least as many colours as phrases, the colour shown is always the
      current phrase's colour (never `undefined`). */
  lemma ColorOfPhrase(cfg: Config, s: State)
    requires Inv(cfg, s) && |cfg.colors| >= |cfg.texts|
    ensures s.currentColor == Some(cfg.colors[s.currentIndex])
  {
  }

  // ---------------------------------------------------------------------
  // Runs of several ticks
  // ---------------------------------------------------------------------

  /** The ticks of `k` successive calls of `updateText` from `s`. */
  function Run(cfg: Config, s: State, k: nat): (r: seq<Tick>)
    requires s.currentIndex < |cfg.texts|
    ensures |r| == k
    ensures k > 0 ==> r[0] == Step(cfg, s)
    decreases k
  {
    if k == 0 then [] else [Step(cfg, s)] + Run(cfg, Step(cfg, s).next, k - 1)
  }

  /** The state after `k` successive calls of `updateText` from `s`. */
  function After(cfg: Config, s: State, k: nat): (r: State)
    requires s.currentIndex < |cfg.texts|
    ensures r.currentIndex < |cfg.texts|
    decreases k
  {
    if k == 0 then s else After(cfg, Step(cfg, s).next, k - 1)
  }

  lemma {:induction false} AfterAdditive(cfg: Config, s: State, a: nat, b: nat)
    requires s.currentIndex < |cfg.texts|
    ensures After(cfg, s, a + b) == After(cfg, After(cfg, s, a), b)
    decreases a
  {
    if a > 0 {
      AfterAdditive(cfg, Step(cfg, s).next, a - 1, b);
    }
  }

  lemma {:induction false} RunAdditive(cfg: Config, s: State, a: nat, b: nat)
    requires s.currentIndex < |cfg.texts|
    ensures Run(cfg, s, a + b) == Run(cfg, s, a) + Run(cfg, After(cfg, s, a), b)
    decreases a
  {
    if a > 0 {
      RunAdditive(cfg, Step(cfg, s).next, a - 1, b);
    }
  }

  /** Every state reached from mount satisfies the invariant. */
  lemma {:induction false} ReachableInv(cfg: Config, s: State, k: nat)
    requires Inv(cfg, s)
    ensures Inv(cfg, After(cfg, s, k))
    decreases k
  {
    if k > 0 {
      StepKeepsInv(cfg, s);
      ReachableInv(cfg, Step(cfg, s).next, k - 1);
    }
  }

  /** Typing the rest of phrase `i` from its first `m` characters: one
      character per tick, each tick asking for `speed`. */
  lemma {:induction false} TypingPhase(cfg: Config, i: nat, m: nat)
    requires i < |cfg.texts| && m <= |cfg.texts[i]|
    ensures After(cfg, Typing(cfg, i, cfg.texts[i][..m]), |cfg.texts[i]| - m) == Typing(cfg, i, cfg.texts[i])
    ensures forall j {:trigger Run(cfg, Typing(cfg, i, cfg.texts[i][..m]), |cfg.texts[i]| - m)[j]} ::
      0 <= j < |cfg.texts[i]| - m ==>
      Run(cfg, Typing(cfg, i, cfg.texts[i][..m]), |cfg.texts[i]| - m)[j]
        == Tick(Typing(cfg, i, cfg.texts[i][..m + j + 1]), cfg.speed)
    decreases |cfg.texts[i]| - m
  {
    var phrase := cfg.texts[i];
    if m < |phrase| {
      var s := Typing(cfg, i, phrase[..m]);
      assert phrase[..m + 1] == phrase[..m] + [phrase[m]];
      assert Step(cfg, s) == Tick(Typing(cfg, i, phrase[..m + 1]), cfg.speed);
      TypingPhase(cfg, i, m + 1);
      var r := Run(cfg, s, |phrase| - m);
      var r' := Run(cfg, Typing(cfg, i, phrase[..m + 1]), |phrase| - (m + 1));
      assert r == [Step(cfg, s)] + r';
      forall j | 0 <= j < |phrase| - m
        ensures r[j] == Tick(Typing(cfg, i, phrase[..m + j + 1]), cfg.speed)
      {
        if j > 0 {
          assert r[j] == r'[j - 1];
          assert (m + 1) + (j - 1) + 1 == m + j + 1;
        }
      }
    } else {
      assert phrase[..m] == phrase;
    }
  }

  /** Deleting phrase `i` from its first `m` characters: one character per
      tick, each tick asking for `deleteSpeed`. */
  lemma {:induction false} DeletingPhase(cfg: Config, i: nat, m: nat)
    requires i < |cfg.texts| && m <= |cfg.texts[i]|
    ensures After(cfg, Deleting(cfg, i, cfg.texts[i][..m]), m) == Deleting(cfg, i, "")
    ensures forall j :: 0 <= j < m ==>
      Run(cfg, Deleting(cfg, i, cfg.texts[i][..m]), m)[j]
        == Tick(Deleting(cfg, i, cfg.texts[i][..m - 1 - j]), cfg.deleteSpeed)
  {
    var phrase := cfg.texts[i];
    if m > 0 {
      var s := Deleting(cfg, i, phrase[..m]);
      assert DropLast(phrase[..m]) == phrase[..m - 1];
      assert Step(cfg, s) == Tick(Deleting(cfg, i, phrase[..m - 1]), cfg.deleteSpeed);
      DeletingPhase(cfg, i, m - 1);
      var r := Run(cfg, s, m);
      var r' := Run(cfg, Deleting(cfg, i, phrase[..m - 1]), m - 1);
      assert r == [Step(cfg, s)] + r';
      forall j | 0 <= j < m
        ensures r[j] == Tick(Deleting(cfg, i, phrase[..m - 1 - j]), cfg.deleteSpeed)
      {
        if j > 0 {
          assert r[j] == r'[j - 1];
          assert (m - 1) - 1 - (j - 1) == m - 1 - j;
        }
      }
    } else {
      assert phrase[..0] == "";
    }
  }

  /** The length of one full cycle on phrase `i`: type it, hold, delete it, advance. */
  function CycleLength(cfg: Config, i: nat): nat
    requires i < |cfg.texts|
  {
    2 * |cfg.texts[i]| + 2
  }

  /** One cycle on phrase `i` of length L, from nothing shown: L ticks each
      appending one character (delay `speed`), one tick switching to deleting
      (delay `pause`), L ticks each removing one character (delay
      `deleteSpeed`) and one tick moving to the next phrase and its colour
      (delay `speed`), which leaves nothing shown, typing, at index
      (i + 1) mod |texts|. */
  lemma Cycle(cfg: Config, i: nat)
    requires i < |cfg.texts|
    ensures forall j :: 0 <= j < |cfg.texts[i]| ==>
      Run(cfg, Typing(cfg, i, ""), CycleLength(cfg, i))[j]
        == Tick(Typing(cfg, i, cfg.texts[i][..j + 1]), cfg.speed)
    ensures Run(cfg, Typing(cfg, i, ""), CycleLength(cfg, i))[|cfg.texts[i]|]
      == Tick(Deleting(cfg, i, cfg.texts[i]), cfg.pause)
    ensures forall j :: |cfg.texts[i]| < j <= 2 * |cfg.texts[i]| ==>
      Run(cfg, Typing(cfg, i, ""), CycleLength(cfg, i))[j]
        == Tick(Deleting(cfg, i, cfg.texts[i][..2 * |cfg.texts[i]| - j]), cfg.deleteSpeed)
    ensures Run(cfg, Typing(cfg, i, ""), CycleLength(cfg, i))[2 * |cfg.texts[i]| + 1]
      == Tick(Typing(cfg, (i + 1) % |cfg.texts|, ""), cfg.speed)
    ensures After(cfg, Typing(cfg, i, ""), CycleLength(cfg, i)) == Typing(cfg, (i + 1) % |cfg.texts|, "")
  {
    var phrase := cfg.texts[i];
    var L := |phrase|;
    var typing, deleting := Run(cfg, Typing(cfg, i, ""), L), Run(cfg, Deleting(cfg, i, phrase), L);
    var r := Run(cfg, Typing(cfg, i, ""), CycleLength(cfg, i));
    assert r == typing + [Tick(Deleting(cfg, i, phrase), cfg.pause)] + deleting
                + [Tick(Typing(cfg, (i + 1) % |cfg.texts|, ""), cfg.speed)] by {
      CycleShape(cfg, i);
    }
    forall j | 0 <= j < L
      ensures r[j] == Tick(Typing(cfg, i, phrase[..j + 1]), cfg.speed)
    {
      assert r[j] == typing[j];
      PhaseTicks(cfg, i);
    }
    forall j | L < j <= 2 * L
      ensures r[j] == Tick(Deleting(cfg, i, phrase[..2 * L - j]), cfg.deleteSpeed)
    {
      assert r[j] == deleting[j - L - 1];
      assert L - 1 - (j - L - 1) == 2 * L - j;
      PhaseTicks(cfg, i);
    }
    CycleEnd(cfg, i, (i + 1) % |cfg.texts|);
  }

  /** A cycle is a typing phase, a hold, a deleting phase and an advance, one
      after the other. */
  lemma CycleShape(cfg: Config, i: nat)
    requires i < |cfg.texts|
    ensures Run(cfg, Typing(cfg, i, ""), CycleLength(cfg, i))
      == Run(cfg, Typing(cfg, i, ""), |cfg.texts[i]|)
         + [Tick(Deleting(cfg, i, cfg.texts[i]), cfg.pause)]
         + Run(cfg, Deleting(cfg, i, cfg.texts[i]), |cfg.texts[i]|)
         + [Tick(Typing(cfg, (i + 1) % |cfg.texts|, ""), cfg.speed)]
  {
    var L := |cfg.texts[i]|;
    var s0, s1, s2 := Typing(cfg, i, ""), Typing(cfg, i, cfg.texts[i]), Deleting(cfg, i, cfg.texts[i]);
    PhaseEnds(cfg, i);
    RunAdditive(cfg, s0, L, L + 2);
    RunAdditive(cfg, s1, 1, L + 1);
    RunAdditive(cfg, s2, L, 1);
  }

  /** A cycle on phrase `i` ends at the start of phrase `next`, the one
      after it, in that phrase's colour. */
  lemma CycleEnd(cfg: Config, i: nat, next: nat)
    requires i < |cfg.texts| && next == (i + 1) % |cfg.texts|
    ensures After(cfg, Typing(cfg, i, ""), CycleLength(cfg, i)) == Typing(cfg, next, "")
  {
    var L := |cfg.texts[i]|;
    var s0, s1, s2 := Typing(cfg, i, ""), Typing(cfg, i, cfg.texts[i]), Deleting(cfg, i, cfg.texts[i]);
    PhaseEnds(cfg, i);
    AfterAdditive(cfg, s0, L, L + 2);
    AfterAdditive(cfg, s1, 1, L + 1);
    AfterAdditive(cfg, s2, L, 1);
  }

  /** Where each phase of a cycle ends: typing ends with the whole phrase
      shown, the hold switches to deleting, deleting ends with nothing
      shown, and the advance moves to the next phrase. */
  lemma PhaseEnds(cfg: Config, i: nat)
    requires i < |cfg.texts|
    ensures After(cfg, Typing(cfg, i, ""), |cfg.texts[i]|) == Typing(cfg, i, cfg.texts[i])
    ensures Step(cfg, Typing(cfg, i, cfg.texts[i])) == Tick(Deleting(cfg, i, cfg.texts[i]), cfg.pause)
    ensures After(cfg, Deleting(cfg, i, cfg.texts[i]), |cfg.texts[i]|) == Deleting(cfg, i, "")
    ensures Step(cfg, Deleting(cfg, i, "")) == Tick(Typing(cfg, (i + 1) % |cfg.texts|, ""), cfg.speed)
  {
    var phrase := cfg.texts[i];
    assert phrase[..0] == "";
    assert phrase[..|phrase|] == phrase;
    TypingPhase(cfg, i, 0);
    DeletingPhase(cfg, i, |phrase|);
  }

  /** The ticks of the typing phase and of the deleting phase of a cycle. */
  lemma PhaseTicks(cfg: Config, i: nat)
    requires i < |cfg.texts|
    ensures forall j :: 0 <= j < |cfg.texts[i]| ==>
      Run(cfg, Typing(cfg, i, ""), |cfg.texts[i]|)[j] == Tick(Typing(cfg, i, cfg.texts[i][..j + 1]), cfg.speed)
    ensures forall j :: 0 <= j < |cfg.texts[i]| ==>
      Run(cfg, Deleting(cfg, i, cfg.texts[i]), |cfg.texts[i]|)[j]
        == Tick(Deleting(cfg, i, cfg.texts[i][..|cfg.texts[i]| - 1 - j]), cfg.deleteSpeed)
  {
    var phrase := cfg.texts[i];
    assert phrase[..0] == "";
    assert phrase[..|phrase|] == phrase;
    TypingPhase(cfg, i, 0);
    DeletingPhase(cfg, i, |phrase|);
  }

  /** The number of ticks the first `k` phrases take, one cycle each. */
  function RotationLength(cfg: Config, k: nat): nat
    requires k <= |cfg.texts|
  {
    if k == 0 then 0 else RotationLength(cfg, k - 1) + CycleLength(cfg, k - 1)
  }

  /** After the cycles of the first `k` phrases the hook is at the start of
      phrase `k`. */
  lemma {:induction false} Rotation(cfg: Config, k: nat)
    requires k < |cfg.texts|
    ensures After(cfg, Initial(cfg), RotationLength(cfg, k)) == Typing(cfg, k, "")
  {
    if k > 0 {
      var before, cycle := RotationLength(cfg, k - 1), CycleLength(cfg, k - 1);
      var start := Typing(cfg, k - 1, "");
      assert After(cfg, Initial(cfg), before) == start by {
        Rotation(cfg, k - 1);
      }
      assert After(cfg, start, cycle) == Typing(cfg, k, "") by {
        assert k == (k - 1 + 1) % |cfg.texts|;
        CycleEnd(cfg, k - 1, k);
      }
      assert After(cfg, Initial(cfg), before + cycle) == Typing(cfg, k, "") by {
        AfterAdditive(cfg, Initial(cfg), before, cycle);
      }
      assert RotationLength(cfg, k) == before + cycle;
    }
  }

  /** After one cycle per phrase the hook is back in its initial state. */
  lemma FullRotation(cfg: Config)
    requires 0 < |cfg.texts|
    ensures After(cfg, Initial(cfg), RotationLength(cfg, |cfg.texts|)) == Initial(cfg)
  {
    var n := |cfg.texts|;
    var before, cycle := RotationLength(cfg, n - 1), CycleLength(cfg, n - 1);
    var start := Typing(cfg, n - 1, "");
    assert After(cfg, Initial(cfg), before) == start by {
      Rotation(cfg, n - 1);
    }
    assert After(cfg, start, cycle) == Initial(cfg) by {
      CycleEnd(cfg, n - 1, 0);
    }
    AfterAdditive(cfg, Initial(cfg), before, cycle);
  }

  /** The length of the longest phrase. */
  function MaxLength(texts: seq<string>): (m: nat)
    ensures forall i :: 0 <= i < |texts| ==> |texts[i]| <= m
  {
    if texts == [] then 0
    else
      var rest := MaxLength(texts[1..]);
      assert forall i :: 1 <= i < |texts| ==> texts[i] == texts[1..][i - 1];
      if |texts[0]| > rest then |texts[0]| else rest
  }

  /** The text shown is never longer than the longest phrase. */
  lemma ShownLengthBounded(cfg: Config, k: nat)
    requires 0 < |cfg.texts|
    ensures |After(cfg, Initial(cfg), k).displayText| <= MaxLength(cfg.texts)
  {
    InitialInv(cfg);
    ReachableInv(cfg, Initial(cfg), k);
  }

  // ---------------------------------------------------------------------
  // The home page's configuration
  // ---------------------------------------------------------------------

  /** The configuration the home page hands to the hook. */
  const SITE_CONFIG: Config := Config(
    ["Full-Stack Developer", ".NET & C# Engineer", "React.js Frontend Specialist", "SQL Server Expert"],
    80, 60, 2000,
    ["#3b82f6", "#6366f1", "#8b5cf6", "#06b6d4"])

  /** On the home page the colour is always the current phrase's own. */
  lemma SiteColorAlwaysDefined(k: nat)
    ensures After(SITE_CONFIG, Initial(SITE_CONFIG), k).currentColor
         == Some(SITE_CONFIG.colors[After(SITE_CONFIG, Initial(SITE_CONFIG), k).currentIndex])
  {
    InitialInv(SITE_CONFIG);
    ReachableInv(SITE_CONFIG, Initial(SITE_CONFIG), k);
    ColorOfPhrase(SITE_CONFIG, After(SITE_CONFIG, Initial(SITE_CONFIG), k));
  }

  // ---------------------------------------------------------------------
  // The delay actually armed
  // ---------------------------------------------------------------------

  /** The tick that finds the phrase complete: it changes no state cell and
      leaves a `pause` timer that switches to deleting. */
  predicate IsHold(cfg: Config, s: State)
    requires s.currentIndex < |cfg.texts|
  {
    !s.isDeleting && |s.displayText| >= |cfg.texts[s.currentIndex]|
  }

  /** The time to the next tick as the hook is written. Every tick but the
      hold changes a state cell; the re-render gives `updateText` a new
      identity, and the re-arm effect clears the timer the tick just set and
      arms a new one with `speed`. After the hold, the switch to deleting
      is such a change, so the next tick comes `speed` after the pause. */
  function DelayAsWritten(cfg: Config, s: State): nat
    requires s.currentIndex < |cfg.texts|
  {
    if IsHold(cfg, s) then cfg.pause + cfg.speed else cfg.speed
  }

  /** The delays armed as written agree with the delays each tick asks for
      only when deleting is as fast as typing and typing takes no time. */
  lemma DelayAsWrittenVersusRequested(cfg: Config, s: State)
    requires Inv(cfg, s)
    ensures s.isDeleting && s.displayText != [] ==>
      (DelayAsWritten(cfg, s) == Step(cfg, s).delay <==> cfg.deleteSpeed == cfg.speed)
    ensures IsHold(cfg, s) ==>
      (DelayAsWritten(cfg, s) == Step(cfg, s).delay <==> cfg.speed == 0)
    ensures !IsHold(cfg, s) && !(s.isDeleting && s.displayText != []) ==>
      DelayAsWritten(cfg, s) == Step(cfg, s).delay
  {
  }

  /** On the home page, a character is deleted every 80 ms, not every 60. */
  lemma SiteDeleteSpeedIgnored()
    ensures Inv(SITE_CONFIG, Deleting(SITE_CONFIG, 0, "F"))
    ensures DelayAsWritten(SITE_CONFIG, Deleting(SITE_CONFIG, 0, "F")) == 80
    ensures Step(SITE_CONFIG, Deleting(SITE_CONFIG, 0, "F")).delay == 60
  {
    assert "F" <= SITE_CONFIG.texts[0];
  }

  // ---------------------------------------------------------------------
  // The hook's state cells, updated in place
  // ---------------------------------------------------------------------

  class TypewriterHook {
    const config: Config
    var displayText: string
    var currentIndex: nat
    var isDeleting: bool
    var currentColor: Option<string>

    function Snapshot(): State
      reads this
    {
      State(displayText, currentIndex, isDeleting, currentColor)
    }

    ghost predicate Valid()
      reads this
    {
      Inv(config, Snapshot())
    }

    /** Mounting the hook. */
    constructor (config: Config)
      requires |config.texts| > 0
      ensures this.config == config
      ensures Valid() && Snapshot() == Initial(config)
    {
      this.config := config;
      displayText := "";
      currentIndex := 0;
      isDeleting := false;
      currentColor := ColorAt(config.colors, 0);
    }

    /** `updateText`: one timer tick; returns the delay it schedules the next tick after. */
    method UpdateText() returns (delay: nat)
      requires Valid()
      modifies this
      ensures Valid()
      ensures Tick(Snapshot(), delay) == Step(config, old(Snapshot()))
    {
      ghost var before := Snapshot();
      StepKeepsInv(config, before);
      var currentText := config.texts[currentIndex];
      if isDeleting {
        var shown := displayText;
        displayText := DropLast(displayText);
        if |shown| == 0 {
          isDeleting := false;
          var nextIndex := (currentIndex + 1) % |config.texts|;
          currentIndex := nextIndex;
          currentColor := ColorAt(config.colors, nextIndex);
          delay := config.speed;
        } else {
          delay := config.deleteSpeed;
        }
      } else {
        if |displayText| < |currentText| {
          displayText := currentText[..|displayText| + 1];
          delay := config.speed;
        } else {
          isDeleting := true;
          delay := config.pause;
        }
      }
    }
  }
}
