# Scroll effects of a one-page portfolio, modelled in Dafny

The page's script (`js/main.js`) wires a handful of independent handlers to the
browser: reveal-on-scroll, the navigation dots and section counter, keyboard
paging between full-screen sections, a parallax offset coalesced to one
animation frame, and a "glow" that follows the focus line down a vertical
timeline. This project models the logic inside those handlers over a snapshot
of geometry and page state. Every DOM call is abstracted away: element
rectangles, the viewport height and the batches an intersection observer
delivers are inputs, and class toggles and style writes are fields of small
state classes.

- `glow.dfy` (`TimelineGlow`): the glow arithmetic as pure functions on `real`:
  focus position, the five `--glow-*` gradient stops, each marker's intensity,
  opacity, `active` class and shadow, with lemmas that tie them to geometry.
- `timeline.dfy` (`Timeline`): the glow update as a method over the array of
  marker looks, pairing items with markers by position and skipping items that
  have no marker.
- `paging.dfy` (`SectionPaging`): the shared current-section index, moved by the
  keydown handler and set by the half-visibility observer; a pure step
  function, a lemma over any run of events, and a class whose methods are
  proved against the step function.
- `navdots.dfy` (`NavDots`): the nav-dot toggle and the section counter.
- `reveal.dfy` (`Reveal`): the `revealed` class, the contact section's
  staggered timers and the hero section's load timer; a pure step function, a
  lemma that the revealed set only grows over any run, and a class proved
  against the step function.
- `parallax.dfy` (`Parallax`): the `ticking` guard as a two-field state machine,
  with a lemma that at most one frame callback is ever pending.
- `observation.dfy` (`Observation`) and `wrappers.dfy` (`Wrappers`): the entry
  batch an intersection callback receives, and `Option`.

The gradient stops are always bounded and ordered, near either end of the
timeline too, because the peak is clamped into [0, 100] before the bands are
laid around it; `TimelineGlow.TimelineStops` proves this for every geometry.

## Model

| member | source | states |
|---|---|---|
| TimelineGlow.RelativePosition | js/main.js:174-175 | the unclamped position is negative exactly when the focus line is above the timeline's top, 0 exactly on it, below 100 exactly above the bottom, and 100 exactly on the bottom |
| TimelineGlow.ClampedPosition | js/main.js:174-178 | the focus position is in [0, 100]; it equals the unclamped position when that is in range, 0 below and 100 above |
| TimelineGlow.ClampedPositionGeometry | js/main.js:174-178 | the position is 0% exactly when the focus line (40% down the viewport) is at or above the timeline's top, 100% exactly when it is at or below its bottom, and strictly between otherwise |
| TimelineGlow.Stops | js/main.js:181-186 | the peak is the position; start is 30 below it and center 15 below it, or 0 where that would go below 0; end is 15 above it and fade 30 above it, or 100 where that would go above 100; for a peak in [0, 100] all five stops are in [0, 100] and ordered |
| TimelineGlow.TimelineStops | js/main.js:174-186 | for any viewport and timeline geometry the five stops are in [0, 100] and start ≤ center ≤ peak ≤ end ≤ fade |
| TimelineGlow.MarkerDistance | js/main.js:194-199 | a marker's distance from the focus line is non-negative and zero exactly when its diamond (10px below the item top) is on the line |
| TimelineGlow.Intensity | js/main.js:197-200 | intensity is in [0, 1]; it is 1 exactly when the marker is on the focus line and 0 exactly when its distance is at least 30% of the viewport height |
| TimelineGlow.IntensityAbove | js/main.js:197-200 | intensity exceeds a threshold t in [0, 1) exactly when the distance is below (1 - t) of the reach distance |
| TimelineGlow.IntensityAntitone | js/main.js:197-200 | a marker nearer the focus line is lit at least as strongly as one farther away |
| TimelineGlow.Opacity | js/main.js:203-205 | opacity is in [0.25, 1], 0.25 exactly for an unlit marker and 1 exactly for a fully lit one |
| TimelineGlow.OpacityAntitone | js/main.js:197-205 | a marker nearer the focus line is at least as opaque as one farther away, and strictly more opaque when it is strictly nearer and within reach |
| TimelineGlow.Look | js/main.js:202-218 | opacity is `Opacity` of the marker's intensity; the marker is active exactly when its intensity exceeds 0.5 and glows exactly when it exceeds 0.3; the glow is proportional to intensity, with blur 15·intensity px and alpha 0.6·intensity, so blur is in (4.5, 15] and alpha in (0.18, 0.6]; an active marker always glows |
| TimelineGlow.GlowAntitone | js/main.js:197-218 | a marker nearer the focus line is active whenever a farther one is, and glows whenever a farther one does, with a blur and alpha at least as large |
| TimelineGlow.LookGeometry | js/main.js:194-218 | a marker is active exactly within 15% of the viewport height of the focus line and glows exactly within 21%; on the line it has opacity 1, is active and has blur 15 and alpha 0.6; out of reach it has opacity 0.25, is inactive and has no shadow |
| TimelineGlow.ExampleStops | js/main.js:174-186 | a 2000px timeline 200px above a 1000px viewport gives position 30 and stops 0, 15, 30, 45, 60 |
| TimelineGlow.ExampleMarkerOnFocus | js/main.js:193-218 | an item 390px down a 1000px viewport has intensity 1, opacity 1, is active and has blur 15 and alpha 0.6 |
| Timeline.TimelineView.constructor | js/main.js:159-161 | the timeline starts without gradient stops and with the given marker looks |
| Timeline.TimelineView.UpdateTimelineGlow | js/main.js:166-220 | without an experience section nothing changes; otherwise the stops become those of the geometry, marker i gets the look of item i for every i that has both, and markers beyond the items keep their look |
| Observation.LastIntersecting | js/main.js:137-141 | the result is absent exactly when no entry intersects, and otherwise is the target of an intersecting entry after which none intersects |
| SectionPaging.NextSection | js/main.js:119-133 | the index stays ≥ 0 and below the section count; it goes up by one exactly for ArrowDown/PageDown when not at the last section, down by one exactly for ArrowUp/PageUp when not at 0, and otherwise stays |
| Observation.IntersectingTargetsAppend | js/main.js:7-13 | the intersecting targets of two batches delivered together are those of each batch together, so splitting a batch changes nothing |
| SectionPaging.AfterVisible | js/main.js:136-142 | with no intersecting entry the index is unchanged; otherwise it becomes the target of the last intersecting entry of the batch |
| SectionPaging.Step | js/main.js:117-142 | a key press or an observer batch with valid targets keeps the index in range |
| SectionPaging.RunStaysInRange | js/main.js:117-146 | over any run of key presses and observer batches the index stays in range |
| SectionPaging.SectionPager.constructor | js/main.js:117 | the index starts at 0 |
| SectionPaging.SectionPager.OnKeyDown | js/main.js:119-133 | the index follows `NextSection`; the key's default is suppressed exactly for the four paging keys; a scroll is requested, to the new index, exactly when the index changed |
| SectionPaging.SectionPager.OnVisible | js/main.js:136-142 | the index becomes that of the last intersecting entry of the batch, and stays in range |
| NavDots.LastName | js/main.js:55-59 | the result is absent exactly when no intersecting entry's section has a non-empty name, and otherwise is the name of the last such section |
| NavDots.NavIndicator.constructor | js/main.js:40-43 | the dots, section names, counter presence and counter text are as given |
| NavDots.NavIndicator.ShowSection | js/main.js:47-59 | dot i is active exactly when i is the section's position, so at most one dot is active; the counter text becomes the section's name only when the counter exists and the name is non-empty, and is unchanged otherwise |
| NavDots.NavIndicator.OnEntries | js/main.js:45-62 | with no intersecting entry the dots are unchanged; otherwise only the dot of the last intersecting section is active; the counter shows the name of the last intersecting named section if the counter exists, and is unchanged otherwise |
| Reveal.StaggerSchedule | js/main.js:24-29 | one reveal timer per matched descendant in document order; the first has delay 0, each next one 100 ms more, so delays strictly increase |
| Reveal.ContactSchedule | js/main.js:21-31 | every timer set by a contact batch reveals one matched descendant after 100 ms times its position; a batch with no intersecting entry sets none, and one with an intersecting entry sets at least as many timers as there are descendants |
| Reveal.ContactScheduleCovers | js/main.js:21-31 | for every intersecting entry of a contact batch, wherever it stands in the batch, every matched descendant i gets the timer that reveals it after i·100 ms |
| Reveal.StaggerRevealsChildren | js/main.js:24-29 | firing every timer of a stagger reveals exactly the matched descendants: each of them, and nothing else |
| Reveal.Step | js/main.js:7-37 | no event takes an element out of the revealed set |
| Reveal.ObservedSplit | js/main.js:7-13 | two reveal callbacks in a row have the effect of one callback with both batches, and a batch delivered again reveals nothing more |
| Reveal.RevealedOnlyGrows | js/main.js:7-37 | over any run of observer batches, contact batches, loads and timer firings, every revealed element stays revealed |
| Reveal.ContactChildScheduled | js/main.js:21-31 | after a contact batch whose last entry intersects, child i has its own timer with delay i·100, placed after the timers of the earlier entries, and firing it reveals that child |
| Reveal.RevealState.constructor | js/main.js:7 | nothing is revealed and no timer is pending at first |
| Reveal.RevealState.OnRevealEntries | js/main.js:7-13 | the revealed set gains exactly the targets of the intersecting entries; timers are unchanged |
| Reveal.RevealState.ScheduleStagger | js/main.js:25-29 | the stagger timers are appended in order and nothing is revealed yet |
| Reveal.RevealState.OnContactEntries | js/main.js:21-32 | every intersecting entry appends a full stagger schedule; nothing is revealed yet |
| Reveal.RevealState.OnLoad | js/main.js:149-156 | one hero timer with delay 200 ms is appended |
| Reveal.RevealState.FireTimer | js/main.js:26-28 | the fired timer leaves the pending list and its targets (one element, or the hero section's elements at that moment, lines 151-155) are added to the revealed set |
| Parallax.Step | js/main.js:98-113 | a scroll sets `ticking` and schedules a frame exactly when `ticking` was false, and changes nothing otherwise; a frame consumes one pending callback and clears `ticking`; each step keeps the coalescing invariant |
| Parallax.AlwaysCoalesced | js/main.js:96-114 | from any coalesced state, over any interleaving of scrolls and frames, at most one frame callback is pending and `ticking` is set exactly while one is |
| Parallax.ScrollsWhileTicking | js/main.js:98-113 | while `ticking` is set, any number of scroll events changes nothing |
| Parallax.BurstThenFrame | js/main.js:96-113 | a burst of scrolls from the initial state leaves exactly one frame pending, and running it returns to the initial state |
| Parallax.ParallaxGuard.constructor | js/main.js:96 | `ticking` starts false with no frame pending |
| Parallax.ParallaxGuard.OnScroll | js/main.js:98-114 | a frame is requested and `ticking` set only when `ticking` was false; the invariant is kept |
| Parallax.ParallaxGuard.OnFrame | js/main.js:100-111 | the pending frame is consumed, `ticking` is cleared, and each image's offset is 0.3 times its top |

## Left out

- TimelineGlow.ClampedPosition: requires a positive timeline height. The code divides by the height unguarded (line 175); with a zero height (a hidden timeline) the quotient is infinite and the clamp at line 178 turns it into 100 when the focus line is below the timeline's top and 0 when above, giving the stops 70/85/100/100/100 or 0/0/0/15/30, and a focus line exactly at the top gives NaN. Exact reals have no infinities, so these cases are not modelled.
- TimelineGlow.Intensity: requires a positive viewport height. With a zero height the normalised distance at line 199 is infinite and line 200 gives intensity 0 (opacity 0.25, inactive, no shadow), except a marker exactly at the top of the viewport, which gives NaN. These cases are not modelled, for the same reason.
- Timeline.TimelineView.UpdateTimelineGlow: takes the same two requirements, only when the experience section exists, since the code returns before dividing otherwise.
- The scroll progress bar (lines 77-82): it divides by the scrollable height without a guard or a clamp, so it is not modelled.
- The nav-dot click handler (lines 69-74) and the smooth anchor scroll (lines 85-93): they parse a data attribute and call `scrollIntoView`, with no logic of their own.
- Intersection-observer semantics: thresholds, the root margin and which elements are observed (lines 2-5, 16-18, 32-37, 62-66, 142-146) belong to the browser; an observer batch is an input.
- Observer targets are positions in the observed list; the code's `indexOf` can only return such a position because nothing else is observed.
- Geometry (`getBoundingClientRect`, `innerHeight`, `scrollY`) is input; the experience section's rectangle (line 169) and `scrollY` in the frame callback (line 101) are read but unused, so they are left out.
- The timeline handler is installed only when the timeline and at least one item exist (lines 163, 222-226); the model treats each scroll and the initial call as a call of `UpdateTimelineGlow`.
- Effects: `preventDefault` and the requested scroll target are returned values; smooth scrolling is not modelled.
- Timing: timers fire in any order the model is given, without a clock, so reveal monotonicity is proved for every order; the delays themselves are modelled.
- Style strings (`%`, `px`, `rgba(...)`) are not modelled, only the numbers written into them.
- Floating point: all glow arithmetic is exact `real` arithmetic.
