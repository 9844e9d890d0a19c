# Portfolio site: the logic behind its animated widgets

A personal portfolio site built as a React single-page application. Almost
all of it is markup and animation parameters. Four pieces of it hold real
state-transition or lookup logic, and this project models those four in
Dafny and proves what they promise:

- **The typewriter** (`useTypewriter`). It types a phrase one character per
  timer tick, holds it, deletes it one character per tick, then moves on to
  the next phrase and that phrase's colour, forever.
  - `Typewriter.Step` is one call of `updateText`: the new state cells and
    the delay it asks for.
  - `Typewriter.TypewriterHook` holds the four state cells and updates them
    in place; its `UpdateText` is proved against `Step`.
  - Lemmas cover the invariant, the four kinds of tick, the exact shape of a
    type/hold/delete/advance cycle, and the return to the initial state after
    one cycle per phrase.
- **The count-up** (`useCountAnimation`). Every animation frame shows
  `floor(target * (1 - (1 - p)^4))`, where `p` is the elapsed share of the
  duration (default 2000 ms). The last frame shows `target` exactly.
  - Timestamps and the duration are taken as whole numbers of
    milliseconds. This is an idealisation: `requestAnimationFrame` passes
    fractional timestamps. It loses nothing, because the curve depends only
    on the ratio `e / d`, and scaling both by the same power of ten makes
    them whole. The curve is then computed exactly as
    `target * (d^4 - (d - e)^4) div d^4`.
  - `CountUp.EasedIsFloorOfCurve` proves this equals the floor of the
    real-valued curve.
  - The frame loop is the class `CountUp.CountAnimation`.
- **The global loader** (`GlobalLoader`). While visible, every 120 ms the
  progress grows by `Math.random() * 12 + 2`, capped at 100, and the interval
  stops at 100. Every 1500 ms the message rotates through four texts. Hiding
  the loader resets both.
  - `Math.random()` is a parameter `r` with `0 <= r < 1`.
  - Progress is an exact rational.
- **The work page** (`WorkPage`). A slider over four projects, mirrored in
  the URL as `?project=<id>`.
  - When the page loads, the query parameter resolves to a project through
    `parseInt` and a map by id, falling back to the first project.
  - A slide change writes the URL back.
  - An effect moves the slider when the URL names a project on another
    slide. It compares ids as text.
  - A counter shows `num / 04`.

The JavaScript built-ins these depend on are modelled in `JsText`:

- `parseInt`: whitespace, sign, `0x` prefix and longest digit run, on exact
  integers.
- `Number#toString` for integers.
- `String#padStart`.
- `URLSearchParams#get`: leading `?`, split on `&`, first `=`, `+` as
  space, first match wins.

Files:

- `option.dfy`: `Wrappers`, the `Option` type. JavaScript's `undefined`,
  `null` and `NaN` results are `None`.
- `js_text.dfy`: `JsText`.
- `typewriter.dfy`: `Typewriter`.
- `count_up.dfy`: `CountUp`.
- `global_loader.dfy`: `Loader`.
- `work_page.dfy`: `Work`.

Where the behaviour described for this site differs from its code, the model
follows the code:

- **No separate "holding" state.** The tick that finds the phrase complete
  arms a `pause` timer, and that timer sets `isDeleting`.
  - The model records the switch at that tick, with delay `pause`.
  - Emptying the text and moving to the next phrase are two separate ticks,
    so one cycle on a phrase of length L takes 2L + 2 ticks.
- **The next phrase's colour is `colors[next]`.** Past the end of `colors`
  that is `undefined`.
- **No configuration is validated.**
  - `|texts| > 0` is required. With no phrases, `texts[currentIndex]` is
    `undefined` and the first tick throws a TypeError at
    `currentText.length`. The model drops that error path.
  - `duration > 0` is required. With 0, the first frame divides 0 by 0, and
    the model does not represent the resulting NaN.
  - Bounds on the count are stated for `target >= 0`.
- **A count-up that is re-activated starts again from 0.** Its first frame
  shows 0 (`CountUp.CountAnimation.Animate`). The effect also starts a new
  run when `target` or `duration` changes while active
  (`CountUp.CountAnimation.Activate`).
- **A count-up with target 0 does not stop at its first frame.** Every frame
  shows 0, but progress stays below 1 until the duration has passed, so
  frames keep being requested until then (`CountUp.CountAnimation.Animate`).
- **Deletion does not run at `deleteSpeed`.** It runs at `speed`; see
  Findings.

One exception: `CountUp.CountAnimation.Animate` latches the start time with
the corrected rule of the first Findings row (`startTime === undefined`),
not with `!startTime`. The two differ only when a frame's timestamp is
exactly 0. The as-written rule is modelled by `CountUp.LatchedStartAsWritten`.

## Model

| member | source | states |
|---|---|---|
| Typewriter.Step | src/features/Home/hooks/useTypeWriter.jsx:12-35 | one tick from a state whose index names a phrase leaves the index naming a phrase |
| Typewriter.StepCases | src/features/Home/hooks/useTypeWriter.jsx:15-34 | a tick does exactly one of four things. (1) An incomplete phrase gets its next character appended, with delay `speed`. (2) A complete phrase equals the shown text and switches to deleting, with delay `pause`. (3) Non-empty text being deleted loses exactly its last character, with delay `deleteSpeed`. (4) Empty text being deleted moves to the next phrase modulo the phrase count, with that phrase's colour, typing from "", with delay `speed` |
| Typewriter.DropLast | src/features/Home/hooks/useTypeWriter.jsx:16 | `slice(0, -1)` removes exactly the last character; empty stays empty |
| Typewriter.StepKeepsInv | src/features/Home/hooks/useTypeWriter.jsx:13-29 | every tick keeps the invariant: the index is in range, the text is a prefix of the current phrase, and the colour is that phrase's |
| Typewriter.InitialInv | src/features/Home/hooks/useTypeWriter.jsx:4-7 | the mount state (empty text, index 0, typing, `colors[0]`) satisfies the invariant and is the start of phrase 0 |
| Typewriter.ColorOfPhrase | src/features/Home/hooks/useTypeWriter.jsx:20-22 | with at least as many colours as phrases, the colour shown is always `colors[currentIndex]`, never undefined |
| Typewriter.Run | src/features/Home/hooks/useTypeWriter.jsx:12-35 | k successive ticks give k tick results, the first of which is one `Step` |
| Typewriter.After | src/features/Home/hooks/useTypeWriter.jsx:12-35 | the state after k ticks still has an index naming a phrase |
| Typewriter.ReachableInv | src/features/Home/hooks/useTypeWriter.jsx:12-35 | the invariant holds after any number of ticks |
| Typewriter.TypingPhase | src/features/Home/hooks/useTypeWriter.jsx:28-30 | from the first m characters, the rest of the phrase is typed in exactly `len - m` ticks, one character each, each with delay `speed` |
| Typewriter.DeletingPhase | src/features/Home/hooks/useTypeWriter.jsx:16-25 | deleting m characters takes exactly m ticks, each removing one character with delay `deleteSpeed`, and ends with empty text |
| Typewriter.Cycle | src/features/Home/hooks/useTypeWriter.jsx:12-35 | from empty text on phrase i, a cycle is L appends, one hold, L removals and one advance, tick by tick with their delays, and it ends typing phrase `(i+1) mod n` from "" |
| Typewriter.CycleShape | src/features/Home/hooks/useTypeWriter.jsx:12-35 | the ticks of a cycle are the typing ticks, then the hold, then the deleting ticks, then the advance |
| Typewriter.CycleEnd | src/features/Home/hooks/useTypeWriter.jsx:18-23 | a cycle on phrase i ends typing phrase `(i+1) mod n` from "", in its colour |
| Typewriter.PhaseEnds | src/features/Home/hooks/useTypeWriter.jsx:15-32 | typing ends with the whole phrase shown; the hold switches to deleting with delay `pause`; deleting ends with nothing shown; the advance moves to the next phrase with delay `speed` |
| Typewriter.PhaseTicks | src/features/Home/hooks/useTypeWriter.jsx:16-30 | the j-th typing tick shows the first j+1 characters with delay `speed`; the j-th deleting tick leaves L-1-j characters with delay `deleteSpeed` |
| Typewriter.Rotation | src/features/Home/hooks/useTypeWriter.jsx:20 | for k < n, after the cycles of the first k phrases the hook is typing phrase k from "" |
| Typewriter.FullRotation | src/features/Home/hooks/useTypeWriter.jsx:18-23 | after one cycle per phrase, the hook is back in its mount state |
| Typewriter.ShownLengthBounded | src/features/Home/hooks/useTypeWriter.jsx:28-29 | the text shown is never longer than the longest phrase |
| Typewriter.SiteColorAlwaysDefined | src/features/Home/components/TypeWriter.jsx:27-38 | with the home page's four phrases and four colours, every reachable state shows its own phrase's colour |
| Typewriter.DelayAsWrittenVersusRequested | src/features/Home/hooks/useTypeWriter.jsx:37-45 | the timer actually armed after a tick matches the tick's requested delay only when deleting is as fast as typing (deleting ticks) and typing takes no time (hold tick); it matches on typing and advancing ticks |
| Typewriter.SiteDeleteSpeedIgnored | src/features/Home/hooks/useTypeWriter.jsx:23-45 | on the home page, a deleting tick asks for 60 ms, but the timer actually armed is 80 ms |
| Typewriter.TypewriterHook.constructor | src/features/Home/hooks/useTypeWriter.jsx:4-7 | mounting sets the four state cells to the mount state, which satisfies the invariant |
| Typewriter.TypewriterHook.UpdateText | src/features/Home/hooks/useTypeWriter.jsx:12-35 | updating the cells in place gives exactly the state and delay of `Step`, and keeps the invariant |
| CountUp.Progress | src/features/Home/hooks/useCountAnimation.jsx:12 | progress is at most 1, non-negative for non-negative elapsed time, and is 1 exactly when elapsed time reaches the duration |
| CountUp.EasedIsFloorOfCurve | src/features/Home/hooks/useCountAnimation.jsx:12-16 | the integer frame value equals `floor(target * (1 - (1 - min(e/d, 1))^4))` computed on exact rationals |
| CountUp.EasedAtStart | src/features/Home/hooks/useCountAnimation.jsx:11-16 | with nothing elapsed, the value is 0 |
| CountUp.EasedAtEnd | src/features/Home/hooks/useCountAnimation.jsx:12-16 | once the elapsed time reaches the duration, the eased value is exactly `target` |
| CountUp.EasedBounds | src/features/Home/hooks/useCountAnimation.jsx:15-16 | for `target >= 0` and elapsed time >= 0, every frame value lies in [0, target] |
| CountUp.EasedMonotone | src/features/Home/hooks/useCountAnimation.jsx:12-16 | for `target >= 0`, the frame value never decreases as the elapsed time grows |
| CountUp.FrameCountMonotone | src/features/Home/hooks/useCountAnimation.jsx:12-22 | within one run, a later frame never shows less than an earlier one, and every frame shows a value in [0, target] |
| CountUp.LatchedStartIsFirstFrame | src/features/Home/hooks/useCountAnimation.jsx:11 | with `undefined` as the only unset value, the start time after any run of frames is the first frame's time |
| CountUp.ZeroTimestampRestartsAnimation | src/features/Home/hooks/useCountAnimation.jsx:11 | as written, frames at 0 and 1000 ms latch 1000 as the start, so the second frame shows 0 instead of the target 100 |
| CountUp.CountAnimation.constructor | src/features/Home/hooks/useCountAnimation.jsx:3-4 | the count starts at 0 and nothing is scheduled |
| CountUp.CountAnimation.WithDefaultDuration | src/features/Home/hooks/useCountAnimation.jsx:3-4 | mounting without a duration uses 2000 ms; the count starts at 0 and nothing is scheduled |
| CountUp.CountAnimation.Activate | src/features/Home/hooks/useCountAnimation.jsx:6-26 | the effect, run when `target`, `isActive` or `duration` changes: when active, a new run begins with the new target and duration, no start time and a frame requested; when inactive, nothing changes and a run in progress keeps its target, duration and latest frame time; the count is kept either way |
| CountUp.CountAnimation.Animate | src/features/Home/hooks/useCountAnimation.jsx:10-23 | a frame latches the first frame's time as the start. The first frame shows 0 and asks for another. Each frame shows the eased value while progress is below 1 and asks for another exactly then. From the duration on it shows `target` and stops. For `target >= 0` the count stays in [0, target] and never decreases within a run. The frame's time becomes the run's latest, so any later frame may follow |
| CountUp.RunToEnd | src/features/Home/hooks/useCountAnimation.jsx:6-26 | an activated run whose first frame is at t0 and whose next frame comes at least a duration later latches t0 as its start, ends showing `target` and requests no further frame |
| Loader.NextProgress | src/components/Loader/GlobalLoader.jsx:173-181 | a tick never exceeds 100. It is 100 exactly when `p + 12r + 2 >= 100`, and otherwise adds at least 2 and less than 14. It never lowers progress |
| Loader.ProgressLowerBound | src/components/Loader/GlobalLoader.jsx:174-180 | after k ticks, progress is at least `min(p + 2k, 100)` and at most 100 |
| Loader.ProgressUpperBound | src/components/Loader/GlobalLoader.jsx:174 | after k ticks, progress is at most `p + 14k` |
| Loader.ProgressStaysFull | src/components/Loader/GlobalLoader.jsx:177-180 | once at 100, progress stays at 100 |
| Loader.ProgressMonotone | src/components/Loader/GlobalLoader.jsx:173-181 | progress after a prefix of the ticks is between the start value and the progress after all of them |
| Loader.FillTime | src/components/Loader/GlobalLoader.jsx:170-183 | from 0, whatever the random numbers, the bar is full after 50 ticks and never after 7 or fewer |
| Loader.CurrentMessage | src/components/Loader/GlobalLoader.jsx:219-222 | the message shown is the caller's message or one of the four rotating texts. It equals the caller's message exactly when that is not "Loading..." or the index is 0 |
| Loader.BarWidth | src/components/Loader/GlobalLoader.jsx:48 | the bar width is the progress, capped at 100 |
| Loader.DisplayRange | src/components/Loader/GlobalLoader.jsx:48-66 | for progress in [0, 100], the label `floor(progress)` is in 0..100 and is 100 exactly when progress is 100; the width is the progress itself |
| Loader.GlobalLoader.constructor | src/components/Loader/GlobalLoader.jsx:149-161 | mounting starts both counters at 0 and schedules both intervals exactly when visible |
| Loader.GlobalLoader.SetVisible | src/components/Loader/GlobalLoader.jsx:158-201 | an unchanged prop changes nothing. Hiding clears both intervals and resets progress and message index to 0. Showing schedules both intervals |
| Loader.GlobalLoader.ProgressTick | src/components/Loader/GlobalLoader.jsx:170-183 | while the interval is scheduled, progress becomes `NextProgress` and strictly grows, and the interval stops exactly when progress reaches 100; otherwise nothing changes |
| Loader.GlobalLoader.MessageTick | src/components/Loader/GlobalLoader.jsx:195-198 | while the interval is scheduled, the message index advances modulo 4; nothing else changes |
| Loader.RunProgress | src/components/Loader/GlobalLoader.jsx:170-185 | firing the progress interval once per random number leaves the loader at the progress `ProgressAfter` predicts |
| Work.DataShape | src/Web/WorkPage.jsx:17-76 | there are four projects, the project on slide k has id k + 1, and ids are distinct |
| Work.MapById | src/Web/WorkPage.jsx:77 | the id map's keys are exactly the projects' ids, and each id maps to a project with that id |
| Work.MapByIdFinds | src/Web/WorkPage.jsx:77 | with distinct ids, the map sends each project's id to that project |
| Work.ProjectsMapFinds | src/Web/WorkPage.jsx:77 | `PROJECTS_MAP` sends each project's id to that project |
| Work.FindIndexById | src/Web/WorkPage.jsx:208 | the result is -1 exactly when no project has the id; otherwise it is the first index with that id |
| Work.FindIndexByIdText | src/Web/WorkPage.jsx:253 | the result is -1 exactly when no id's decimal text equals the text; otherwise it is the first index whose id has that text |
| Work.CurrentIndexOfSlide | src/Web/WorkPage.jsx:207-210 | the current index of the project on slide k is k |
| Work.CurrentIndexOfProject | src/Web/WorkPage.jsx:207-210 | every project is found: its current index is a slide, and that slide holds the project |
| Work.InitialProject | src/Web/WorkPage.jsx:190-194 | resolution always yields one of the four projects, and a missing or empty parameter yields the first |
| Work.InitialProjectSpec | src/Web/WorkPage.jsx:191-194 | a parameter that `parseInt` reads as an id n in 1..4 yields project n; any other parameter (missing, empty, not a number, unknown id) yields the first project |
| Work.InitialProjectByParse | src/Web/WorkPage.jsx:192-194 | a parameter yields a project other than the first only if it is non-empty and `parseInt` reads that project's id from it |
| Work.InitialProjectOfNumeral | src/Web/WorkPage.jsx:193 | a parameter made of a project's id followed by a tail that does not start with a digit or letter (such as ".5") yields that project |
| Work.SyncTarget | src/Web/WorkPage.jsx:252-256 | the sync effect moves the slider only when the parameter is non-empty, the slider is mounted, the parameter is exactly some project's id as text, and that project is on another slide than the active one |
| Work.SlideRoundTrip | src/Web/WorkPage.jsx:232-258 | the URL written for slide k has `project` equal to the id's text. It resolves to the project on slide k. The sync effect leaves a slider on k alone and moves a slider on any other slide to k |
| Work.PaddedIdResolvesButDoesNotSync | src/Web/WorkPage.jsx:189-256 | "02" resolves to the second project on load, but the sync effect, which compares text, never moves the slider for it |
| Work.CounterShape | src/Web/WorkPage.jsx:347 | the total reads "04", each project's number is its id padded to two digits, and the counter on slide k reads `0<k+1> / 04` |
| Work.WorkPage.constructor | src/Web/WorkPage.jsx:189-199 | the first render takes the current project from the URL, with no slider mounted |
| Work.WorkPage.HandleSlideChange | src/Web/WorkPage.jsx:232-237 | the active slide's project becomes current, and the URL becomes `?project=<its id>` |
| Work.WorkPage.SlideTo | src/Web/WorkPage.jsx:255 | the mounted slider's `slideTo`: moving to the active slide changes nothing. Moving to another slide makes it active and runs the slide-change handler |
| Work.WorkPage.GoToSlide | src/Web/WorkPage.jsx:248 | with no slider mounted, nothing changes; otherwise the slider moves to the index, and the current project and URL follow when it was on another slide |
| Work.WorkPage.MountSlider | src/Web/WorkPage.jsx:306-311 | the slider mounts on slide 0 and a timer is set for the slide of the project resolved from the URL |
| Work.WorkPage.MountTimer | src/Web/WorkPage.jsx:310 | the timer moves the slider to the pending slide and clears it. On another slide, the page and URL follow; on the active slide, URL and current project stay |
| Work.WorkPage.SyncEffect | src/Web/WorkPage.jsx:251-258 | the effect acts exactly when `SyncTarget` names a slide. The slider, current project and URL then all move to that slide; otherwise nothing changes |
| Work.WorkPage.GoToPrevSlide | src/Web/WorkPage.jsx:246 | one slide back, with the current project and the URL following it; nothing changes on the first slide or with no slider |
| Work.WorkPage.GoToNextSlide | src/Web/WorkPage.jsx:247 | one slide on, with the current project and the URL following it; nothing changes on the last slide or with no slider |
| Work.SlideChangeThenSync | src/Web/WorkPage.jsx:232-258 | after the slider reports a new slide, the URL resolves to the current project, whose index is the active slide, and the sync effect that follows does nothing |
| JsText.ParseIntOfNumeral | src/Web/WorkPage.jsx:193 | `parseInt` of an integer's decimal text, followed by a tail that does not start with a digit or letter, gives back that integer |
| JsText.DecimalStringValue | src/Web/WorkPage.jsx:237 | the digits written for a natural number read back as that number |
| JsText.NumberToStringInjective | src/Web/WorkPage.jsx:253 | distinct integers have distinct decimal texts |
| JsText.PadStart | src/Web/WorkPage.jsx:347 | the result is the input left-padded with the fill character to the width; it is never shortened |
| JsText.SearchParamOfSinglePair | src/Web/WorkPage.jsx:190-191 | `?name=value` gives back `value` for `name` when neither holds `&` or `+` and the name holds no `=` |

## Left out

- Timers, animation frames and the clock. A delay is a value that a tick returns; a timestamp is a parameter of a frame.
- React's scheduling. The model assumes each render's effects run before the next timer or frame fires.
- Memoisation. `useMemo` and `useCallback` are plain function calls here.
- Markup, styling, `motion` parameters and `prefersReducedMotion`.
- Typewriter.TypewriterHook.UpdateText: returns the delay `updateText` requests, not the timer that the re-arm effect finally leaves. That timer is `DelayAsWritten`.
- The typewriter's unmount cleanup. It only clears a timer.
- Typewriter.Step: lengths and `slice` count characters (Unicode scalar values). The hook's `length` and `slice` count UTF-16 code units, so a character outside the Basic Multilingual Plane, such as an emoji, takes two typing ticks and two deleting ticks in the source, with a lone surrogate shown in between. The model takes one tick each way. It matches the source only for phrases inside the Basic Multilingual Plane; the home page's four phrases are ASCII.
- Typewriter.Step: the switch to deleting happens when the `pause` timer fires, not at the tick. The model records it at the tick with delay `pause`.
- IEEE doubles and `Math.pow`. The count-up's curve and the loader's progress are exact integers and rationals. Rounding in double arithmetic can make the source's frame value one lower than `Eased`. For example, with target 81, duration 3 and elapsed 1, the double product lands just below 65 and `Math.floor` gives 64, while `Eased` gives 65.
- CountUp.CountAnimation.Animate: requires frame times within a run never to decrease. It also collapses the two `setCount` calls of a final frame into the second one. It latches the start with `startTime === undefined`, the corrected rule of the first Findings row, not the source's `!startTime`. A run whose first frame has timestamp 0 therefore keeps 0 as its start in the model, while the source re-latches at the next frame (`CountUp.ZeroTimestampRestartsAnimation`).
- CountUp.CountAnimation.Activate: a previous run's frame chain is never cancelled in the source. When `target` or `duration` changes mid-run, two chains update the count. The model keeps one chain, the latest run's.
- CountUp.EasedBounds: stated for `target >= 0` only. A negative target gives values in [target, 0], which is not modelled.
- CountUp.EasedMonotone: stated for `target >= 0` only. A negative target makes the count go down.
- `Math.random()` is a parameter of each progress tick.
- `progressRef` as a separate cell. The interval's decision to stop reads it at GlobalLoader.jsx:177. The model keeps that value as the local `capped` in `ProgressTick` and decides on it the same way.
- The loader's render-time lag of `isVisibleRef`. The ref is updated together with the prop.
- The `null` render of a hidden loader.
- Percent-decoding in `URLSearchParams`. Names and values are compared as written.
- Router details: the `/work` path and the `replace` flag.
- Slider internals: transitions, speed, lazy images and pagination dots. The slider is only its active index.
- The 50 ms loading overlay after a slide change.
- Project fields other than id, number, category and title.
- `parseInt` of numbers beyond 2^53. Exact integers are used.

## Findings

| source | as written | input that shows it | evidently intended | confidence | as-written member | corrected member |
|---|---|---|---|---|---|---|
| src/features/Home/hooks/useCountAnimation.jsx:11 | `if (!startTime)` treats a first frame timestamp of 0 as unset, so the next frame becomes the start | frames at 0 and 1000 ms with duration 1000 and target 100: the second frame shows 0 and asks for more frames | the first frame's time is the start, whatever its value (`startTime === undefined`) | not executed; medium (animation-frame timestamps are rarely exactly 0) | CountUp.ZeroTimestampRestartsAnimation | CountUp.LatchedStartIsFirstFrame |
| src/features/Home/hooks/useTypeWriter.jsx:37-45 | every tick that changes a state cell re-renders, and the re-arm effect then clears the timer `updateText` just set and arms it again after `speed`, so `deleteSpeed` never takes effect | the home page's configuration (speed 80, deleteSpeed 60) deleting from "F": the tick asks for 60 ms, and the timer armed is 80 ms | characters are deleted every `deleteSpeed` ms, as each tick requests | not executed; high (follows from React running the effect cleanup after the tick's state change) | Typewriter.SiteDeleteSpeedIgnored | Typewriter.DeletingPhase |
