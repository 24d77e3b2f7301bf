# Battery slider model

A Dafny model of the logic inside the `BatterySlider` React component: a
decorative "battery charge" slider whose single integer charge (0–100) is set
by dragging a pointer or a finger along a track, and from which two lines of
text are derived: an estimate of the charging time left and a status message.

The model has three parts, one module each, and two support modules:

- `TimeRemaining` (time_left.dfy) — the time-left estimator `TimeLeft` and
  its formatter `FormatTime`, branch for branch. Floating-point products are
  exact integer arithmetic here: `Math.floor(r * 1.2)` is `(6 * r) / 5` and
  `Math.floor(r * 1.5)` is `(3 * r) / 2` for the non-negative `r` where they
  occur. The estimator is paired with an independent reference, `Expected`: a
  total number of minutes (`TotalMinutes`: 1, 1.2, 1.5 or 3 minutes per
  remaining percent, by band) split canonically into hours and minutes below
  sixty. It is also paired with a reader, `Parse`, that undoes the formatter.
  All of this is defined for every integer charge; the JavaScript code
  computes with doubles, so the two agree for charges whose arithmetic is
  exact in doubles (see "## Left out").
- `StatusMessage` (status.dfy) — the four-way threshold classifier
  `ChargingMessage`, and the agreement between its "fully charged" and the
  time line's.
- `DragSlider` (slider.dfy) — the pointer-to-percentage mapping `ChargeAt`
  (clamp the offset into the track, scale to percent, round half up as
  `Math.round` does), the update that is a no-op when the track element is
  missing, and the event handlers as one transition function `Step` over the
  state `{charge, dragging}`. `dragging` is the synchronous flag the handlers
  read. Events are `MouseDown(x)`, `MouseMove(x)`, `TouchStart(touch)`,
  `TouchMove(touch)`, `MouseUp` and `TouchEnd`. A touch carries an optional
  first touch point. Every event is paired with the track bounds at that
  moment, `Option<Rect>`, because the bounds are read afresh on each event.
- `Decimal` (decimal.dfy) — how a template literal shows an integer, and a
  reader for it; `Options` (options.dfy) — the `Option` type.

Two points where the model follows the code closely:

- The slider advertises the range 0..100 (`aria-valuemin` and
  `aria-valuemax`, src/components/BatterySlider.jsx:177-178), but the initial
  value is taken as given, without clamping
  (src/components/BatterySlider.jsx:6). So the range invariant over event
  sequences (`RunKeepsChargeInRange`) assumes an in-range start; every
  position update afterwards lands in range by itself.
- Only a zero track width is replaced, by 1 (src/components/BatterySlider.jsx:48),
  so a negative width reaches the division. The model gives it the code's
  meaning. The offset clamps to 0, and `0 / width` is `-0`.
  `Math.round(-0)` is `-0`, which compares, computes and displays as 0. So
  the charge is 0, the same as for a zero-width track.

## Model

| member | source | states |
|---|---|---|
| TimeRemaining.FormatTime | src/components/BatterySlider.jsx:18-23 | The formatter's text is never empty and is "fully charged" exactly when at most one percent remains; otherwise it starts with the first number shown. `ParseFormatTime` states that the text determines the hour/minute pair. |
| TimeRemaining.TimeLeft | src/components/BatterySlider.jsx:13-39 | The time line is never empty and is "fully charged" exactly from charge 99 on. `TimeLeftMeetsReference` states what it shows below that, and `TimeLeftWellFormed` and `TimeLeftInjective` state its shape and that it identifies the charge. |
| TimeRemaining.ParseFormatTime | src/components/BatterySlider.jsx:18-23 | The formatter's text reads back as "fully charged" when at most one percent remains, and otherwise as exactly the hour/minute pair it was given, so distinct pairs give distinct text. |
| TimeRemaining.ParseMinutesOnly | src/components/BatterySlider.jsx:20 | "M min left" reads back as zero hours and M minutes. |
| TimeRemaining.ParseHoursOnly | src/components/BatterySlider.jsx:21 | "H hr left" with H non-zero reads back as H hours and zero minutes. |
| TimeRemaining.ParseHoursAndMinutes | src/components/BatterySlider.jsx:22 | "H hr M min left" reads back as H hours and M minutes. |
| TimeRemaining.TimeLeftFormatsReference | src/components/BatterySlider.jsx:26-38 | Below 99 percent, every branch passes the formatter the canonical split (minutes below 60) of the reference total of 1, 1.2, 1.5 or 3 minutes per remaining percent. |
| TimeRemaining.ThreePerPercentSplit | src/components/BatterySlider.jsx:34-37 | The last branch's r/20 hours and (r%20)*3 minutes are the hours and minutes of 3*r minutes. |
| TimeRemaining.TimeLeftMeetsReference | src/components/BatterySlider.jsx:13-39 | For every charge, the time line reads back as the reference reading: "fully charged" from 99 on, else the reference minutes as hours and minutes. |
| TimeRemaining.TotalMinutesIncreasing | src/components/BatterySlider.jsx:26-37 | The estimate is positive and strictly increases with the remaining percentage, across band boundaries too. |
| TimeRemaining.ExpectedBounds | src/components/BatterySlider.jsx:26-38 | Below 99 percent the reading is a positive duration with minutes in 0..59 and non-negative hours; for charges 0..98 at most 5 hours. |
| TimeRemaining.ExpectedInjective | src/components/BatterySlider.jsx:26-38 | Distinct charges give distinct readings unless both are at least 99. |
| TimeRemaining.TimeLeftInjective | src/components/BatterySlider.jsx:13-39 | Two charges give the same time line if and only if they are equal or both at least 99. |
| TimeRemaining.FormatShowsPositive | src/components/BatterySlider.jsx:20-22 | Formatting non-negative hours and minutes, not both zero, shows no minus sign and no zero number. |
| TimeRemaining.TimeLeftWellFormed | src/components/BatterySlider.jsx:19-22 | For every charge the time line is non-empty, has no minus sign, and every number in it is positive, so "0 min" and "0 hr" never appear. |
| TimeRemaining.MinutesOnlyExample | src/components/BatterySlider.jsx:26-29 | Charges 97 and 88 give "3 min left" and "14 min left" (remaining 12, 1.2 × 12 = 14.4 rounded down). |
| TimeRemaining.HoursAndMinutesExample | src/components/BatterySlider.jsx:30-32 | Charge 55 gives "1 hr 7 min left". |
| TimeRemaining.HoursOnlyExample | src/components/BatterySlider.jsx:33-37 | Charge 0 gives "5 hr left". |
| Decimal.Show | src/components/BatterySlider.jsx:20-22 | A non-negative number is shown as a non-empty run of digits that starts with 0 only for zero. |
| Decimal.ShowInt | src/components/BatterySlider.jsx:20-22 | An integer is shown with a leading minus sign exactly when it is negative. |
| Decimal.ReadShowInt | src/components/BatterySlider.jsx:20-22 | Reading a shown integer back returns it and the text after it, when that text does not start with a digit. |
| Decimal.ShowIntInjective | src/components/BatterySlider.jsx:20-22 | Two integers are shown alike if and only if they are equal. |
| StatusMessage.ChargingMessage | src/components/BatterySlider.jsx:138-143 | "fully charged" exactly from 99, "almost charged" exactly on 80..98, "charging..." exactly on 30..79, "low battery" exactly below 30: one message for each integer. |
| StatusMessage.ChargingMessageMonotone | src/components/BatterySlider.jsx:138-143 | A higher charge never gives a lower message. |
| StatusMessage.FullAgreesWithTimeLeft | src/components/BatterySlider.jsx:15-19 | Following from `TimeLeft`'s contract, the time line says "fully charged" exactly when the status message (line 139) does. |
| StatusMessage.ChargingMessageExamples | src/components/BatterySlider.jsx:138-143 | Charge 72 gives "charging...", 85 "almost charged", 100 "fully charged", 10 "low battery". |
| DragSlider.RoundHalfUp | src/components/BatterySlider.jsx:50 | The rounded value k of n/d satisfies k - 1/2 <= n/d < k + 1/2, which is `Math.round`. |
| DragSlider.RoundHalfUpUnique | src/components/BatterySlider.jsx:50 | Only one integer satisfies that bracket, so it defines the rounding. |
| DragSlider.ScaledRoundBounds | src/components/BatterySlider.jsx:47-50 | For an offset within the track the rounded percentage is in 0..100, 0 at the left edge and 100 at the right edge. |
| DragSlider.Offset | src/components/BatterySlider.jsx:47 | The offset is the pointer's distance from the left edge, clamped into [0, width]: 0 at or left of the edge, the width at or past the end, 0 for a zero or negative width. `ChargeAt` and `ChargeAtMonotone` build on it. |
| DragSlider.ChargeAt | src/components/BatterySlider.jsx:47-50 | The mapped charge is in 0..100. It is 0 at or left of the track and 100 at or right of its end. It is 0 for a zero or negative width. Otherwise it is the integer nearest 100 × offset / width. |
| DragSlider.ChargeAtMonotone | src/components/BatterySlider.jsx:47-50 | Moving the pointer right never lowers the mapped charge. |
| DragSlider.UpdateFromPosition | src/components/BatterySlider.jsx:42-62 | With the track missing the charge is unchanged; with it present the new charge is in range. |
| DragSlider.UpdateIdempotent | src/components/BatterySlider.jsx:42-58 | Repeating an update with the same coordinate and bounds gives the same charge. |
| DragSlider.Step | src/components/BatterySlider.jsx:65-107 | After an event, dragging holds exactly when it was a press (mouse-down, or touch-start with a point) or a drag was on and the event was not a release. A press, or a move during a drag, with track and coordinate present, sets the charge to the mapped position. In every other case the charge is unchanged. |
| DragSlider.StepIdempotent | src/components/BatterySlider.jsx:65-107 | Handling the same event twice in a row with the same bounds equals handling it once. |
| DragSlider.Run | src/components/BatterySlider.jsx:113-123 | Events are handled one by one in delivery order, as the document-level listeners pass them on. No events leave the state alone; a run ending in a release is not dragging, and one ending in a press is. `RunKeepsChargeInRange`, `IdleIgnoresAllButPresses` and `ReleaseEndsDrag` state what runs preserve. |
| DragSlider.RunKeepsChargeInRange | src/components/BatterySlider.jsx:65-107 | Starting in range, the charge stays in 0..100 over any event sequence. |
| DragSlider.IdleIgnoresAllButPresses | src/components/BatterySlider.jsx:75-79 | When not dragging, any event sequence without a press leaves the state unchanged. This covers ignored moves, touch events without a point, and releases. |
| DragSlider.ReleaseEndsDrag | src/components/BatterySlider.jsx:102-107 | A release clears the drag flag whatever the bounds and keeps the charge. Moves after it are ignored until the next press. |
| DragSlider.Init | src/components/BatterySlider.jsx:5-10 | The start state is the given charge, unclamped, and not dragging; `RunKeepsChargeInRange` and `DefaultRunInRange` state what it guarantees. |
| DragSlider.DefaultRunInRange | src/components/BatterySlider.jsx:5-7 | From the default start (charge 72, not dragging) the charge stays within 0..100 over any sequence of events. |

## Left out

- Rendering (src/components/BatterySlider.jsx:145-214): JSX markup, ARIA attributes and the `motion` spring and glow animations are presentation only.
- Listener registration in the effect (src/components/BatterySlider.jsx:110-135): the model assumes every global move and release reaches the handlers in delivery order; attaching, re-attaching and removing listeners is not modelled.
- `preventDefault` calls and `console.log`/`console.error` output: browser plumbing with no effect on state.
- The `try`/`catch` around the update (src/components/BatterySlider.jsx:45, 59-61): nothing in the integer model can fail, so the catch branch (state unchanged) never arises.
- React state batching: `isDragging` state and `isDraggingRef` are merged into the single `dragging` flag the handlers read.
- DragSlider.ChargeAt: rounds the exact quotient, while the component rounds the double `(x / width) * 100`, which can fall just below an exact half. At offset 29 on a 200-pixel track the component's double is 14.499999999999998, giving 14, where `ChargeAt` gives 15. In such half-way cases the two differ by one.
- Floating point: pointer coordinates and track bounds are whole pixels, and charges are integers. `Math.round` is exact rounding of a rational, so IEEE-754 half-way effects are abstracted away. A non-integer `initialCharge` is not modelled.
- TimeRemaining.TimeLeftInjective: holds for every integer charge in the model, but matches the component only while its arithmetic is exact in doubles (|charge| < 2^53); beyond that `100 - charge` can round two distinct charges to the same double.
- TimeRemaining.TimeLeftMeetsReference: matches the component only for |charge| < 2^53, for the same reason, and only while the numbers shown stay below 10^21, which JavaScript would print in exponent form.
- TimeRemaining.TimeLeftWellFormed: matches the component only for |charge| < 2^53 and numbers below 10^21, as above; `Decimal.Show` models plain digits only.
- Multi-touch beyond the first touch point. The mouse-down and mouse-up a browser emulates after a tap are not generated by the model, but they are ordinary `MouseDown` and `MouseUp` inputs, so every lemma about runs covers them.
- src/components/icons/ChargingIcon.jsx: static SVG markup with no logic.
- src/content.config.ts: a content-collection schema handed to the site framework; the framework is not part of this model.
