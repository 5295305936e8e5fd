# Prize-wheel spinner, modelled in Dafny

This project models the prize wheel of the `native-wheel-app` template:
the wheel screen in `src/templates/Welcome.tsx` and its copy of `makeWheel`
in `src/utils/utils.ts`. It covers four parts:

- **The segment-count field.** `handleSegmentsChange` always echoes the typed text. It changes the
  segment count only when `parseInt(text, 10)` gives a number from 1 to 20.
- **The wheel.** `makeWheel` builds one slice per arc of an equal-weight d3-shape pie. Each
  slice gets a palette colour, a prize `Math.round(r * 10 + 1) * 200`, and the path and
  centroid of its arc.
- **The spin.** A pan gesture that ends starts a decay animation. Any change of the angle locks
  the wheel. When the decay stops, the angle becomes `angle % 360`. It then snaps to the nearest
  multiple of `360 / segments` (popcorn's `snap`). When the snap completes, the wheel unlocks,
  `finished` is set and the winner is recorded.
- **Winner resolution.** `getWinnerIndex` maps the settled angle to a slice index with
  sign-dependent arithmetic.

JavaScript numbers are exact `real`s and `int`s. `Math.round(x)` is `floor(x + 0.5)`. `%` is the
truncating remainder, whose sign follows the dividend. The component is the class
`Spinner.SpinnerApp`: its state hooks and `wheelPathsRef.current` are fields, and its handlers,
effects and animation callbacks are methods. The animation in flight is the field `animation`. It
holds the segment count that the callbacks captured when the gesture ended.

Modules: `Wrappers` (Option), `JsNumbers` (`Math.floor`, `Math.round`, `Math.abs`, `%`),
`JsParseInt` (`parseInt`), `WheelPaths` (`makeWheel`), `Winner` (snap and `getWinnerIndex`),
`Spinner` (the component).

Two points about what the code does and does not promise:

- randomcolor may return a repeated colour, and the code checks nothing, so the model claims no
  distinctness of slice colours.
- `onPan` has no guard of its own. `PanGestureHandler` is disabled while `enabled` is false (once
  the angle has moved), and the model gates a gesture on `enabled`, as the code does.

## Model

| member | source | states |
|---|---|---|
| `JsNumbers.Floor` | src/templates/Welcome.tsx:98 | `Math.floor(x)` is the integer r with r <= x < r + 1 |
| `JsNumbers.Round` | src/templates/Welcome.tsx:96 | `Math.round(x)` lies in (x - 0.5, x + 0.5] |
| `JsNumbers.RoundIsNearest` | src/templates/Welcome.tsx:96 | no integer is closer to x than `Math.round(x)` |
| `JsNumbers.RoundHalvesUp` | src/templates/Welcome.tsx:96 | halves round towards plus infinity on both sides of zero (k + 0.5 to k + 1, k - 0.5 to k) |
| `JsNumbers.RoundWhole` | src/templates/Welcome.tsx:96 | `Math.round` leaves a whole number unchanged |
| `JsNumbers.AbsInt` | src/templates/Welcome.tsx:96 | `Math.abs(x)` is x or -x, and never negative |
| `JsNumbers.Abs` | src/templates/Welcome.tsx:96 | `Math.abs` over reals: x or -x, and never negative |
| `JsNumbers.Trunc` | src/templates/Welcome.tsx:96 | the quotient of a truncating division: at most x in size, with the sign of x, within 1 of x |
| `JsNumbers.ModTurn` | src/templates/Welcome.tsx:96 | `a % 360` lies strictly between -360 and 360 and keeps the sign of a |
| `JsNumbers.ModTurnInside` | src/templates/Welcome.tsx:112 | an angle already inside (-360, 360) is its own remainder |
| `JsNumbers.ModTurnPeriodic` | src/templates/Welcome.tsx:112 | adding a turn in the direction of the sign leaves `a % 360` unchanged |
| `JsNumbers.ModTurnWholeTurns` | src/templates/Welcome.tsx:112 | a whole number of turns leaves remainder 0 |
| `JsNumbers.TruncRem` | src/templates/Welcome.tsx:99 | integer `a % m` lies in (-m, m) and has the sign of a |
| `JsNumbers.TruncRemOfComplement` | src/templates/Welcome.tsx:99 | `(m - j) % m` is 0 for j = 0 and m - j for 0 < j < m |
| `JsNumbers.TruncRemNonNegative` | src/templates/Welcome.tsx:99 | for a non-negative dividend the truncating and the Euclidean remainder agree |
| `JsParseInt.ParseInt` | src/templates/Welcome.tsx:89 | `parseInt(text, 10)`: skips JavaScript white space, takes one optional sign, reads the longest decimal digit run, and gives `NaN` (`None`) when there is no digit; a number is read only from text holding a digit, and a negative one only after a minus sign. `ParseIntOfNumeral` and `ParseIntWithoutLeadingDigit` pin its value on every such text |
| `JsParseInt.ParseSigned` | src/templates/Welcome.tsx:89 | after the white space: a number only when a digit follows the optional sign, negative only after '-' |
| `JsParseInt.TrimStartDropsWhiteSpace` | src/templates/Welcome.tsx:89 | everything `TrimStart` drops is JavaScript white space |
| `JsParseInt.TrimStartOfWhiteSpace` | src/templates/Welcome.tsx:89 | leading white space of any length is skipped entirely |
| `JsParseInt.ParseIntOfNumeral` | src/templates/Welcome.tsx:89 | white space, then "", "+" or "-", then a digit run, then text not starting with a digit, reads as the signed value of the run: " 5", "+5" and "05" all read as 5, "-5" as -5 |
| `JsParseInt.ParseIntWithoutLeadingDigit` | src/templates/Welcome.tsx:89-90 | white space and an optional sign followed by anything but a digit is `NaN`: ".5", "a5", "--5", "- 5" |
| `JsParseInt.DigitChar` | src/templates/Welcome.tsx:89 | the character of a decimal digit is a digit and reads back as that digit |
| `JsParseInt.TrimStart` | src/templates/Welcome.tsx:89 | `parseInt` skips the leading white space: what is left is a suffix of the text that does not start with white space |
| `JsParseInt.LeadingDigits` | src/templates/Welcome.tsx:89 | `parseInt` reads the longest prefix of decimal digits |
| `JsParseInt.Decimal` | src/templates/Welcome.tsx:89 | the numeral of a count is a non-empty run of digits |
| `JsParseInt.DigitsValueOfDecimal` | src/templates/Welcome.tsx:89 | the digits of a numeral denote the number written |
| `JsParseInt.LeadingDigitsOfNumeral` | src/templates/Welcome.tsx:89 | the digit run stops at the first non-digit after a numeral |
| `JsParseInt.ParseIntOfDecimal` | src/templates/Welcome.tsx:89 | `parseInt(String(n) + rest, 10) == n` when rest does not start with a digit ("12abc" reads as 12) |
| `JsParseInt.ParseIntOfNegativeDecimal` | src/templates/Welcome.tsx:89 | `parseInt("-" + String(n) + rest, 10) == -n` |
| `JsParseInt.ParseIntWithoutDigits` | src/templates/Welcome.tsx:89-90 | text with no decimal digit parses to `NaN` |
| `Spinner.AcceptedSegments` | src/templates/Welcome.tsx:89-91 | an edit selects a count exactly when `parseInt` gives a number from 1 to 20, and then it selects that number |
| `Spinner.AcceptedSegmentsOfDecimal` | src/templates/Welcome.tsx:86-93 | a typed count n is taken exactly when 1 <= n <= 20 |
| `Spinner.AcceptedSegmentsWithoutDigits` | src/templates/Welcome.tsx:90 | non-numeric text never changes the count |
| `Spinner.AcceptedSegmentsRefusesNegative` | src/templates/Welcome.tsx:90 | a negative count is refused |
| `WheelPaths.PrizeValue` | src/utils/utils.ts:24 | `Math.round(r * 10 + 1) * 200` for r in [0, 1) is a multiple of 200 in [200, 2200] |
| `WheelPaths.PrizeValueOnto` | src/utils/utils.ts:24 | every multiple of 200 in [200, 2200] is drawn by some r in [0, 1) |
| `WheelPaths.EqualPie` | src/utils/utils.ts:7-8 | the pie over n ones has n arcs in input order, each of weight 1 and width 360/n; they are contiguous from 0 to 360 |
| `WheelPaths.TotalWidthOfContiguous` | src/utils/utils.ts:8 | contiguous arcs cover exactly the span from the first start to the last end |
| `WheelPaths.EqualPieCoversTurn` | src/utils/utils.ts:7-8 | the widths of the pie's arcs sum to a full turn |
| `WheelPaths.MakeWheel` | src/utils/utils.ts:6-28 | `makeWheel(n)` returns exactly n slices; slice i takes colour i of a palette of n colours, a prize from draw i, and the path and centroid of arc i under the shared settings (pad 0.01, outer radius width/2, inner radius 20) |
| `WheelPaths.MakeWheelGeometryIsFixed` | src/utils/utils.ts:14-25 | two wheels of one size have the same paths and centroids, whatever palette and draws they used |
| `Winner.Step` | src/templates/Welcome.tsx:95 | `oneTurn / segments` is positive, at most 360, and n steps make a turn |
| `Winner.Snap` | src/templates/Welcome.tsx:113-116 | `snap(step)(v)` lies within half a step of v (in (-step/2, step/2] of it) |
| `Winner.SnapIsNearestMultiple` | src/templates/Welcome.tsx:113-116 | no multiple of the step is closer to v than `snap(step)(v)` |
| `Winner.WithinHalfStepIsNearest` | src/templates/Welcome.tsx:113-116 | a multiple of the step within half a step of v is at least as near as any other multiple |
| `Winner.SnapOfMultiple` | src/templates/Welcome.tsx:113 | a multiple of the step snaps to itself |
| `Winner.Slot` | src/templates/Welcome.tsx:112-116 | the remainder snaps to k steps with -segments <= k <= segments |
| `Winner.SlotWithinTurn` | src/templates/Welcome.tsx:115 | a slot the snap reaches lies within [-360, 360] |
| `Winner.SnapWithinTurn` | src/templates/Welcome.tsx:112-116 | the snap target of an angle inside one turn lies within [-360, 360] |
| `Winner.WinnerIndex` | src/templates/Welcome.tsx:94-99 | `getWinnerIndex` as written: in [0, segments) for a non-negative angle, in [0, segments] for a negative one |
| `Winner.QuotientBound` | src/templates/Welcome.tsx:96-98 | `floor(deg / step)` is in [0, segments], and equals segments exactly when deg = 360 |
| `Winner.WinnerIndexOverflow` | src/templates/Welcome.tsx:96-98 | for a negative angle the index equals segments exactly when `angle % 360 < -359.5` |
| `Winner.RawAngleOverflows` | src/templates/Welcome.tsx:96-98 | a raw angle of -359.6 gives index segments, one past the last slice |
| `Winner.ModTurnOfSlot` | src/templates/Welcome.tsx:96 | a snapped slot's remainder is the slot angle itself, or 0 at a full turn |
| `Winner.NegativeSlotAboveOverflow` | src/templates/Welcome.tsx:96-98 | a negative slot short of a full turn stays above -359.5 when a step exceeds half a degree |
| `Winner.SnappedWinnerIndexInRange` | src/templates/Welcome.tsx:112-119 | after the snap, the as-written index is always in [0, segments) (for fewer than 720 slices) |
| `Winner.SlotSlice` | src/templates/Welcome.tsx:199-210 | the slice under the pointer after a turn of k slots is the i in [0, segments) with i + k a whole number of turns (slice i is drawn centred at i steps) |
| `Winner.SliceSlot` | src/templates/Welcome.tsx:199-210 | every slice has a slot in the first turn that lands on it |
| `Winner.SlotSliceInjective` | src/templates/Welcome.tsx:199-210 | distinct slots of one turn land on distinct slices |
| `Winner.CorrectedWinnerIndex` | src/templates/Welcome.tsx:94-99 | the corrected index is always in [0, segments) |
| `Winner.CorrectedWinnerIndexOfSlot` | src/templates/Welcome.tsx:94-99 | the corrected index of snapped slot k is the slice under the pointer |
| `Winner.CorrectedWinnerIndexUnderPointer` | src/templates/Welcome.tsx:94-100 | for every angle and every slice count, on or off that wheel's grid, the slice at the corrected index has its centre within half a slice of the pointer, up to whole turns: `-step/2 <= i*step + angle - m*360 < step/2` |
| `Winner.WholeSlotDegrees` | src/templates/Welcome.tsx:96 | with whole steps, `deg` for slot k is \|k\| steps, or 0 at a full turn |
| `Winner.WholeSlotQuotient` | src/templates/Welcome.tsx:96-98 | with whole steps, `floor(deg / step)` for slot k is \|k\|, or 0 at a full turn |
| `Winner.WholeNonNegativeSlot` | src/templates/Welcome.tsx:99 | with whole steps, a non-negative slot resolves to the slice under the pointer |
| `Winner.WinnerIndexWhenStepIsWhole` | src/templates/Welcome.tsx:94-99 | when segments divides 360, the as-written index of every snapped slot is the slice under the pointer |
| `Winner.SevenSegmentsCollide` | src/templates/Welcome.tsx:96 | with 7 slices, snapped slots 0 and 1 both resolve to slice 0, though slot 1 brings slice 6 under the pointer; turning the other way, slot -1 also resolves to slice 0 though it brings slice 1 under the pointer |
| `Winner.WinnerIndexExamples` | src/templates/Welcome.tsx:94-99 | angle 0 on 12 slices gives slice 0, -45 on 12 gives slice 1, and 200 on 4 gives slice 2 |
| `Winner.SpinSettlesOnSlot` | src/templates/Welcome.tsx:111-119 | wherever the decay stops, the snap lands within half a step of its remainder, the as-written index is in range, and the corrected index names the slot's slice |
| `Winner.At` | src/templates/Welcome.tsx:100 | indexing the wheel yields a slice exactly for an index in range, otherwise `undefined` |
| `Winner.ResolveWinnerAsWritten` | src/templates/Welcome.tsx:94-100 | with an unedited wheel and a non-negative angle, the completion callback finds a slice of the wheel |
| `Winner.EditDuringSpinLosesWinner` | src/templates/Welcome.tsx:95-100 | a spin captured on 12 slices that ends one slot on, after the field switched to 4 slices, yields `undefined` |
| `Winner.ResolveWinner` | src/templates/Welcome.tsx:94-100 | the corrected callback always picks a slice of the wheel on screen; `CorrectedWinnerIndexUnderPointer` shows it is the slice under the pointer, even when the angle was snapped to a grid captured before an edit |
| `Winner.ResolveWinnerAgreesWhenUnedited` | src/templates/Welcome.tsx:94-100 | with no edit during the spin and whole-degree steps, both resolutions pick the same slice |
| `Spinner.SpinnerApp.constructor` | src/templates/Welcome.tsx:53-61 | the screen opens enabled, not finished, with no winner, 12 segments, text "12", step 30, offset 15, a 12-slice wheel and angle 0 |
| `Spinner.SpinnerApp.SetAngle` | src/templates/Welcome.tsx:63-69 | setting the angle fires the listener: the wheel locks (`enabled` and `finished` false), nothing else changes |
| `Spinner.SpinnerApp.Pan` | src/templates/Welcome.tsx:103-108 | only a gesture in the END state on an enabled handler starts the decay, capturing the segment count; otherwise nothing changes |
| `Spinner.SpinnerApp.AnimationFrame` | src/templates/Welcome.tsx:63-69 | each animation frame moves the angle and keeps the wheel locked |
| `Spinner.SpinnerApp.DecayDone` | src/templates/Welcome.tsx:111-117 | when the decay stops at v, the angle becomes `v % 360` and the snap starts towards the nearest multiple of the captured step, within one turn |
| `Spinner.SpinnerApp.SnapDone` | src/templates/Welcome.tsx:118-123 | completing the snap leaves the angle on the target, sets `enabled` and `finished`, and records `ResolveWinner` on the wheel on screen as winner: the slice under the pointer, by `Winner.CorrectedWinnerIndexUnderPointer` |
| `Spinner.SpinnerApp.SegmentsChanged` | src/templates/Welcome.tsx:76-83 | after a count change, the step is 360/segments, the offset is half a step, and the wheel is a fresh one with exactly `segments` slices |
| `Spinner.SpinnerApp.HandleSegmentsChange` | src/templates/Welcome.tsx:86-93 | the text is always echoed; the count and wheel change only for a new count from 1 to 20; nothing else changes, even during a spin |
| `Spinner.SpinnerApp.ShownPrize` | src/templates/Welcome.tsx:256 | a prize is shown exactly when `finished && enabled`, and it is the winner's value, a multiple of 200 in [200, 2200] |

`Spinner.SpinnerApp.Valid` is the component's invariant:

- The count is 1 to 20, and the step, the offset and the wheel's length follow it.
- Every prize on the wheel is valid.
- `finished` implies that the wheel is enabled and that a winner exists.
- The wheel is locked only while an animation is in flight. It is always locked during the snap.
- The snap target lies within one turn.

`Spinner.EditDuringSpin` is a client of the class. It runs a spin during which the field switches
the wheel from 12 to 4 slices. The spin still snaps on the 12-slice grid, and the winner is the
slice of the 4-slice wheel whose centre is within half a slice of the pointer.

## Findings

| source | as written | input that shows it | evidently intended | confidence | as-written member | corrected member |
|---|---|---|---|---|---|---|
| src/templates/Welcome.tsx:96 | `deg` is the angle rounded to whole degrees, and the index is `floor(deg / step)`. When 360/n is not whole, rounding can drop `deg` below slot k's grid line, so two snapped slots share one slice. | n = 7, snapped angle 360/7 (slot 1): `deg` = 51, `floor(51 / 51.43)` = 0, so the index is 0, the same as for angle 0. Slot 1 brings slice 6 under the pointer. The other way round, slot -1 (angle -360/7) also gives index 0 while slice 1 is under the pointer. | Round in slice steps, not degrees. Slot k then maps to the slice `(-k) mod n`, one slice per slot. | high for the collision, medium for the intended mapping; not executed | `Winner.WinnerIndex`, `Winner.SevenSegmentsCollide` | `Winner.CorrectedWinnerIndex`, `Winner.CorrectedWinnerIndexOfSlot`, `Winner.SlotSliceInjective` |
| src/templates/Welcome.tsx:95-100 | The completion callback uses the segment count captured when the gesture ended. It indexes `wheelPathsRef.current`, which an edit during the spin has already replaced (line 82). | Start a spin on 12 slices and type "4" while it turns. The spin ends one slot clockwise (angle 30), the index is 11, and the 4-slice wheel has no slice 11, so the winner is `undefined`. | The winner is the slice under the pointer on the wheel on screen. | medium; not executed | `Winner.ResolveWinnerAsWritten`, `Winner.EditDuringSpinLosesWinner` | `Winner.ResolveWinner`, `Winner.CorrectedWinnerIndexUnderPointer`, `Spinner.SpinnerApp.SnapDone` |

The component class resolves the winner with the corrected definitions. Without an edit during
the spin and with whole-degree steps (n dividing 360), both definitions pick the same slice
(`Winner.ResolveWinnerAgreesWhenUnedited`).

A raw angle of -359.6 gives index `segments` (`Winner.RawAngleOverflows`). The snap never
produces such an angle (`Winner.SnappedWinnerIndexInRange`), so this is not listed as a finding.

## Left out

- `Spinner.SpinnerApp.SnapDone`: records the corrected winner, not the one `getWinnerIndex` computes. The as-written resolution is `Winner.ResolveWinnerAsWritten` (see Findings).
- The camera screen (`src/templates/CameraApp.tsx`) is left out: permissions, capture, image manipulation and face detection are calls into platform libraries.
- Rendering is left out: `renderKnob`, `_renderSvgWheel`, `renderWinner`, the `Animated` interpolations and the styles. Only the geometry that `Winner.SlotSlice` relies on is used: slice i is drawn centred at i steps, because the drawing is turned back by half a slice.
- The physics of `Animated.decay` (velocity `velocityY / 1000`, deceleration 0.999) are left out. The decay's frames and its stopping angle are arbitrary reals passed to `AnimationFrame` and `DecayDone`. The gesture's velocity is accepted and ignored.
- The snap animation's 300 ms easing is left out. Its frames are `AnimationFrame` calls, and it ends exactly on its target.
- Floating point is not modelled: angles are exact reals, so `360 / 7` is exact. Negative zero is not modelled either; JavaScript's `-0 < 0` is false, which is what the model gives for 0.
- `JsParseInt.ParseInt`: a long digit string gives its exact value, not JavaScript's rounded double. The field accepts at most two characters (`maxLength`), so this never matters on screen.
- d3-shape's path text and centroid values are uninterpreted functions of the arc settings and the arc (`WheelPaths.ArcGenerator`). Whether a centroid lies inside its wedge is not modelled.
- `WheelPaths.EqualPie` uses degrees where d3-shape uses radians. The arc generator's pad angle is kept in radians, as the source passes it.
- The randomcolor palette and the `Math.random` draws are inputs (`WheelPaths.Draws`). The distribution of the prizes is not modelled; the end values are half as likely as the others.
- On mount, the segments effect builds the wheel a second time. The model builds the initial wheel once, from one set of draws.
- A second gesture END reaching `onPan` before the first decay frame has locked the wheel replaces the decay in flight. The callbacks of the stopped decay are not modelled.
- A stuck animation whose completion never fires leaves the wheel locked. The model does not force any method to be called.
- `src/templates/Welcome.test.tsx`, `app/index.tsx` and `babel.config.js` are left out: a render test, a routing shell and build configuration.
