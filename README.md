# MarathonPaceKM pace calculator — a Dafny model

This project models `assets/app.js`, the single script behind a running pace
calculator page. Given a finish time (hours, minutes, seconds) and a distance
in kilometres, the page shows the average pace ("M:SS min/km"), the finish
time ("H:MM:SS"), a race-day checkpoint table, an extended marker table and a
per-kilometre split table. It also fills a static chart of marathon finish
times from 2:30:00 to 6:00:00, and on "goal pages" it seeds a configured goal
time (and optionally a locked distance) and calculates at once.

Modules, one per part of the script:

- `JsNumber` — JavaScript numbers (`Finite`, `NaN`, ±`Infinity`), truthiness,
  `Math.round` (halves rounded up), the truncating `%`.
- `Decimal` — `String(n)` of integers and `pad2`, with a digit reader as the
  partner of the round-trip lemmas.
- `Helpers` — `clampInt`, `secondsToPace`, `secondsToHMS` (with readers of
  both formats), `isMarathonDistance`, `labelForKm`, `buildCheckpointRows`.
- `Calculation` — the `calc` pipeline on values: `Evaluate` says what the
  results panel shows; `Run` computes it step by step with the same loops as
  the script; `CalculationProperties` states what the tables contain.
- `Chart` — the `buildChart` loop.
- `Form` — the page as a class `Page` whose fields are the inputs `h`, `m`,
  `s`, `dist`, the results panel and the chart container (`None` when the
  element is missing). `Calc`, `ApplyGoalPageDefaults`, `ResetForm`,
  `BuildChart` and `Load` update them in place; each is tied to a pure
  transition (`CalcFields`, `ApplyGoalFields`, `ResetFields`) about which the
  lemmas are stated.

Modelling choices:

- The value of an input field is the number `Number(value)` reads from it, so
  the write-back `hEl.value = h` stores `Finite(h)`. The goal configuration is
  a parameter, not the global `window.GOAL_PAGE`; a missing `goalSeconds` or
  `lockDistanceKm` is `NaN`.
- Distances and seconds per km are exact reals. Table rows and the report
  hold numbers (seconds, seconds per km); their cells show `SecondsToHMS` and
  `SecondsToPace` of them (`TimeText`, `Report.PaceText`,
  `Report.FinishTimeText`, `ChartRow.FinishText`, `ChartRow.PaceText`).
- Labels are the datatype `Label`; `LabelText` gives the printed text where
  it does not depend on printing a fractional number.
- In `labelForKm` both branches of `Number.isInteger(km) ? … : …` print the
  same text, so the model has a single case.

## Model

| member | source | states |
|---|---|---|
| `JsNumber.Round` | assets/app.js:18 | `Math.round` gives the nearest integer, a half rounded up |
| `JsNumber.Rem` | assets/app.js:20 | JS `%` with a positive divisor: Dafny's remainder for a non-negative dividend, the negated remainder of the magnitude otherwise |
| `JsNumber.RealRem` | assets/app.js:245-246 | `%` on a positive float goal: a remainder in [0, b) that leaves a whole multiple of b |
| `JsNumber.FloorOfPart` | assets/app.js:244-246 | flooring a non-negative real's minute or hour part equals dividing its floor |
| `JsNumber.FloorOfRem` | assets/app.js:245-246 | flooring the float remainder by 60 or 3600 equals the integer remainder of the floor |
| `JsNumber.Number.Truthy` | assets/app.js:253 | `lockDistanceKm` in a boolean context: false exactly for 0 and NaN, true for every other number and both infinities |
| `Decimal.NatToString` | assets/app.js:7 | `String(n)` of a non-negative integer is non-empty digits, one digit iff n < 10, no leading zero |
| `Decimal.IntToString` | assets/app.js:7 | `String(n)` starts with a minus sign exactly for negatives and is digits otherwise |
| `Decimal.NatToStringRoundTrip` | assets/app.js:7 | reading back the digits of `String(n)` gives n |
| `Decimal.Pad2` | assets/app.js:7 | `pad2` leaves texts of two or more characters alone and makes any n in [0, 99] exactly two digits |
| `Decimal.Pad2RoundTrip` | assets/app.js:7 | the two digits `pad2` gives for n in [0, 99] read back as n |
| `Helpers.ClampInt` | assets/app.js:9-14 | non-finite input gives the fallback (even out of range); otherwise the floor clamped: in [min, max] when min <= max, the floor itself when in range, min below, max above, and max when max < min |
| `Helpers.SecondsToPace` | assets/app.js:16-22 | the pace text always ends in " min/km" |
| `Helpers.PaceRoundTrip` | assets/app.js:16-22 | for a rounded total >= 0 the printed minutes*60 + seconds equal the rounded total and the seconds field is below 60 (no ":60") |
| `Helpers.SecondsToHMS` | assets/app.js:24-30 | the text starts with a minus sign exactly when the rounded total is negative; otherwise it is "H:MM:SS": digits, a colon, two digits, a colon, two digits (read back by `HMSRoundTrip`) |
| `Helpers.SplitSeconds` | assets/app.js:25-28 | h = t/3600, m = (t%3600)/60, s = t%60 recompose t with m < 60 |
| `Helpers.HMSUnique` | assets/app.js:24-30 | a duration has only one split into hours, minutes below 60 and seconds below 60 |
| `Helpers.ReadHMSFields` | assets/app.js:29 | "H:MM:SS" built from digit fields reads back as those fields |
| `Helpers.HMSRoundTrip` | assets/app.js:24-30 | for a rounded t >= 0 the "H:MM:SS" text reads back as h, m, s with m, s < 60 and h*3600 + m*60 + s = t |
| `Helpers.HMSDeterminesSeconds` | assets/app.js:24-30 | two non-negative durations print the same "H:MM:SS" iff they round to the same second |
| `Helpers.IsMarathonDistance` | assets/app.js:34-36 | true exactly for distances strictly between 42.194 and 42.196 km |
| `Helpers.LabelForKm` | assets/app.js:38-42 | "Half (21.1)" exactly for markers strictly between 21.0965 and 21.0985 km, otherwise "<km> km" |
| `Helpers.NumberText` | assets/app.js:41 | `${x}` is determined exactly for integer values below 10^21 in magnitude; it has a minus sign exactly for negatives and reads back as the value otherwise |
| `Helpers.LabelText` | assets/app.js:39-41 | the fixed captions always have a text (the half marker exactly "Half (21.1)"); "<n> km", "Finish (<n> km)" and "<n> (Finish)" have one exactly when n's text is determined, and then it is n's `NumberText` with that suffix or frame; a split caption reads back as its kilometre |
| `Helpers.RowTimeReadsBack` | assets/app.js:56 | a time cell `secondsToHMS(t)` with t >= 0 reads back as round(t), minutes and seconds below 60 |
| `Helpers.CheckpointRows` | assets/app.js:53-59 | the rows `buildCheckpointRows` writes: one per checkpoint (contents in `BuildCheckpointRows`) |
| `Helpers.BuildCheckpointRows` | assets/app.js:53-59 | one row per checkpoint, in order, labelled by `labelForKm` at cumulative time secPerKm * k |
| `Calculation.TotalSeconds` | assets/app.js:120 | with minutes and seconds below 60 the total lies in hour h (h * 3600 <= t < h * 3600 + 3600) and, within it, in minute m |
| `Calculation.FilterBelow` | assets/app.js:140 | `filter(k => k < dist)` keeps exactly the candidates below the distance, and on increasing candidates they are a prefix, in order |
| `Calculation.CheckpointTableShape` | assets/app.js:140-154 | the contract of `CheckpointTable` (filter, `buildCheckpointRows`, then `rows \|\| placeholder`): never empty, no finish row, and the placeholder alone exactly when no candidate is below the distance |
| `Calculation.RaceFinishLabel` | assets/app.js:142 | "Finish (42.2)" exactly for a marathon distance, otherwise "Finish (<dist> km)" |
| `Calculation.SplitFinishLabel` | assets/app.js:168-169 | "42.2 (Finish)" exactly for a marathon distance, otherwise "<dist> (Finish)" |
| `Calculation.WholeKm` | assets/app.js:160-163 | the number of kilometres the loop visits: floor(dist) for dist >= 1, none below 1 km |
| `Calculation.SplitTable` | assets/app.js:159-170 | the per-km table has one row per kilometre the loop visits plus the finish row: `WholeKm(dist)` + 1 rows, the finish row alone below 1 km (row contents in `SplitTableShape`) |
| `Calculation.Evaluate` | assets/app.js:119-136 | the distance-invalid message iff the distance is non-finite or <= 0; else the finish-time message iff the total is <= 0; else results with seconds per km = total / distance > 0 |
| `Calculation.SplitRows` | assets/app.js:159-170 | floor(dist) + 1 rows: km 1..floor(dist) at secPerKm * km, then one finish row labelled "42.2 (Finish)" or "<dist> (Finish)" |
| `Calculation.Run` | assets/app.js:119-192 | the step-by-step pipeline (checks, filters, the row loops) yields exactly `Evaluate` |
| `CalculationProperties.CandidatesIncreasing` | assets/app.js:140-151 | both candidate lists are strictly increasing |
| `CalculationProperties.CheckpointTableExact` | assets/app.js:140-157 | a checkpoint table over increasing candidates lists exactly those below the distance, in order, or is the placeholder alone when there are none |
| `CalculationProperties.RaceTableExact` | assets/app.js:138-148 | the race table is the race candidates below the distance (placeholder iff dist <= 5) followed by exactly one finish row, "Finish (42.2)" iff marathon distance |
| `CalculationProperties.MarkerTableExact` | assets/app.js:150-157 | the marker table is the marker candidates below the distance (placeholder iff dist <= 5), with no finish row |
| `CalculationProperties.SplitTableExact` | assets/app.js:159-170 | the splits are km 1..floor(dist) in increasing order at secPerKm * km, then exactly one finish row: floor(dist) + 1 rows |
| `CalculationProperties.SplitTableShape` | assets/app.js:159-170 | for any positive distance: floor(dist) + 1 rows, row k at secPerKm * k, one final finish row |
| `CalculationProperties.SplitTimeReadsBack` | assets/app.js:164 | split k's time cell reads back as round(secPerKm * k), minutes and seconds below 60 |
| `CalculationProperties.SplitFinishReadsBack` | assets/app.js:170 | the splits' finish row shows the entered time |
| `CalculationProperties.FinishTimeReadsBack` | assets/app.js:136 | the finish time of a sanitised h, m, s reads back as exactly h, m, s |
| `CalculationProperties.SummaryReadsBack` | assets/app.js:132-136 | the summary's finish time reads back as the entry and its pace as the rounded total / distance, seconds below 60 |
| `CalculationProperties.MarathonExample` | assets/app.js:132-136 | 3:30:00 over 42.195 km shows "4:59 min/km" and "3:30:00" |
| `CalculationProperties.PaceText299` | assets/app.js:16-22 | 299 seconds per km print as "4:59 min/km" |
| `CalculationProperties.FinishText12600` | assets/app.js:24-30 | 12600 seconds print as "3:30:00" |
| `CalculationProperties.TenKmExample` | assets/app.js:140-148 | over 10 km in one hour the race table is the 5 km row at 1800 s and the finish row |
| `CalculationProperties.RaceFinishText` | assets/app.js:142 | the finish label reads "Finish (42.2)" iff the distance is within 0.001 km of 42.195 |
| `CalculationProperties.MarkerTextExamples` | assets/app.js:38-42 | 21.0975 prints "Half (21.1)", 5 and 40 print "5 km" and "40 km" |
| `CalculationProperties.ClampExamples` | assets/app.js:9-14 | -5 clamps to 0, 70 to 59, a non-number to its fallback 7, 3.9 to 3 |
| `Chart.BuildChartRows` | assets/app.js:67-93 | 43 rows, one per five minutes from 150 to 360 minutes |
| `Chart.ChartFinishIsHMS` | assets/app.js:85-89 | the chart's "H:MM:00" cell is `secondsToHMS` of the finish time |
| `Chart.ChartRowAt` | assets/app.js:83-90 | the row for `min` minutes: hh * 60 + mm == min with mm < 60 |
| `Chart.ChartFinishReadsBack` | assets/app.js:85-89 | each chart row's finish cell reads back as its finish time in seconds |
| `Chart.ChartPaceReadsBack` | assets/app.js:84-90 | each chart row's pace cell reads back as the rounded marathon pace, seconds below 60 |
| `Chart.ChartSpan` | assets/app.js:63-69 | the chart runs from "2:30:00" to "6:00:00" |
| `Form.AllPresent` | assets/app.js:107 | `calc` goes on only when all five elements exist; any one missing makes it return |
| `Form.FieldSeconds` | assets/app.js:110-120 | sanitised inputs stand for at most 359999 seconds |
| `Form.CalcFields` | assets/app.js:100-130 | with an element missing nothing changes; otherwise h, m, s are written back sanitised (unchanged when already sanitised), dist is untouched and the panel shows the outcome for the written-back values |
| `Form.CalcIdempotent` | assets/app.js:110-117 | a second `calc` sees exactly what the first used: running it twice is running it once |
| `Form.CalcSanitises` | assets/app.js:107-130 | after `calc` the inputs hold the clamped values, total <= 359999, and the panel holds only the matching error message on each error path |
| `Form.GoalPartsSplit` | assets/app.js:244-246 | the goal's hours, minutes and seconds (minutes, seconds < 60) make up floor(goalSeconds) |
| `Form.GoalRuns` | assets/app.js:233-236 | no goal, or a NaN or infinite goalSeconds, stops `applyGoalPageDefaults`; a runnable goal is a truthy, non-negative number; every finite goal above 0 runs |
| `Form.GoalParts` | assets/app.js:244-246 | the goal's hours are the whole hours in it, minutes and seconds below 60 |
| `Form.GoalFields` | assets/app.js:238-259 | a present hours input gets floor(goalSeconds / 3600), a present minutes input floor((goalSeconds % 3600) / 60) and a present seconds input floor(goalSeconds % 60), each independently of the others; minutes and seconds are whole and at most 59, and the three together make floor(goalSeconds); the results panel is untouched; dist takes the lock and the control is hidden iff the lock is truthy and the control exists |
| `Form.ApplyGoalFields` | assets/app.js:232-236 | without a finite positive goalSeconds nothing changes |
| `Form.GoalApplied` | assets/app.js:232-263 | on a full page the time becomes floor(goalSeconds) (hours capped at 99 by `calc`), dist becomes the lock iff it is truthy and then the control is hidden, and the panel shows the outcome |
| `Form.GoalOnPartialPage` | assets/app.js:232-263 | with an element missing `calc` returns at once: each present time input holds its own part of the goal (hours uncapped), all three together floor(goalSeconds), the lock applies as usual and the results panel is unchanged |
| `Form.ResetFields` | assets/app.js:195-213 | on a goal page reset re-applies the goal; otherwise each present element gets 4, 0, 0, 42.195 or an empty panel, an absent one stays absent, and a full page stands for 4:00:00 over 42.195 km |
| `Form.Page.Calc` | assets/app.js:100-193 | the page's new fields are `CalcFields` of the old; the chart is untouched |
| `Form.Page.ApplyGoalPageDefaults` | assets/app.js:232-263 | the page's new fields are `ApplyGoalFields` of the old |
| `Form.Page.SetGoalFields` | assets/app.js:243-259 | the page's new fields are `GoalFields` of the old |
| `Form.Page.ResetForm` | assets/app.js:195-213 | the page's new fields are `ResetFields` of the old |
| `Form.Page.BuildChart` | assets/app.js:62-97 | an existing chart container gets the 43 chart rows; nothing else changes |
| `Form.Page.Load` | assets/app.js:266-277 | page load builds the chart and applies the goal defaults |

## Left out

- DOM access and event wiring (`getEl`, the `click` listeners, `DOMContentLoaded`): the page's elements are the fields of `Page`, and the handlers are its methods.
- HTML markup (`buildTable`, the results template, the chart template, the bold and muted styling): the model keeps structured rows and reports.
- IEEE-754 arithmetic: `totalSec / dist`, `42.195` and `21.0975` are exact reals. Results on exact rounding boundaries may differ from the browser's, and above 2^53 the browser's values differ at nearly every step. The tolerance tests `Math.abs(distKm - 42.195) < 0.001` (assets/app.js:35) and `Math.abs(km - 21.0975) < 0.001` (assets/app.js:39) are exact here: in double precision |42.196 − 42.195| and |42.194 − 42.195| both come out as 0.00099999999999767, below 0.001, so the browser captions those two distances "Finish (42.2)" and "42.2 (Finish)" while `IsMarathonDistance` excludes them (at 21.0965 and 21.0985 the double difference is above 0.001, so the half-marathon test agrees).
- Decimal.NatToString: JavaScript prints integers of 10^21 and above in exponent form ("6e+21"); the model prints every digit. This reaches the screen only through absurd inputs, e.g. a distance typed as 1e-20 km, whose pace minutes `SecondsToPace` then prints as 22 digits.
- Decimal.IntToString: the same exponent form for magnitudes of 10^21 and above is not modelled.
- Form.GoalConfig: a non-number `lockDistanceKm` is taken as the number it spells, which changes its truthiness. In JavaScript any non-empty string is truthy, so `"0"` or `"abc"` still locks the distance and hides the control; the model reads them as 0 and NaN, both falsy, and does neither.
- JavaScript's printing of fractional numbers (`${dist} km`, `Finish (${dist} km)`): the labels keep the number; `LabelText` gives text only for integer values below 10^21.
- `Number(value)` parsing of the input text: a field's value is the number it reads as.
- The hiding of the distance control is a boolean `distHidden`; the control's parent element is taken to exist.
- Calculation.SplitTable: its own contract gives only the row count; the rows themselves (km k at secPerKm * k, then the one finish row) are stated by the lemma `CalculationProperties.SplitTableShape`, so that unfolding the table inside `Evaluate` stays cheap.
- Helpers.CheckpointRows: its own contract gives only the row count; the rows themselves are stated by `Helpers.BuildCheckpointRows` and `CalculationProperties.CheckpointTableExact`, for the same reason.
