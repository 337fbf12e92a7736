# even-transit display core in Dafny

even-transit shows train connections on smart glasses. A trip planner returns
itineraries, which are made of legs. The app turns them into short text lines
for three list pages:

- the **home** page lists the saved station pairs;
- the **results** page gives one summary line per itinerary;
- the **details** page lists one itinerary leg by leg.

This project models the pure text-building core behind those lines, and the
leg-merging loop of the details page, which is imperative. It proves what
each piece promises.

Modules:

- `Js`: the JavaScript behaviours the code relies on:
  - truthiness of `||` on optional strings;
  - `String(n)` of an integer, with `DecimalValue`/`SignedValue` reading it back;
  - `Math.round(a / b)`, written out; halves round towards +infinity (`-2.5` becomes `-2`), as JavaScript does;
  - the truncating `%`;
  - `substring(0, k)` and `padStart(2, '0')`.
- `Transit`: the itinerary schema as the display code reads it (`Leg`, `Itinerary`, `StationPoint`, `Place`). Instants are integer milliseconds.
- `Utils`: the delay, `formatDuration`, and the summary pipeline `extractItinerarySummaries`. `formatTime` is a parameter (`TimeFormatter`).
- `Details`:
  - `getPointInfo`, which renders one end of a leg (time with delay, name with truncation and platform).
  - `extractLegDetails`, a `method` with a loop that carries the `skipNextDeparture` flag, as the source does.
  - The method is proved equal to a leg-by-leg specification: `Lines`, the blocks of all legs flattened.
  - An itinerary of L legs gives 3L - m - w lines, where m is the number of merges and w the number of walks that are not last.
  - Each leg is seen through a `LegView`: whether it is a walk, its departure, mode and arrival lines, whether it merges with the next leg, and the merged line.
  - The engine is stated for any endpoint renderer (`ExtractLegDetailsWith`). The page's renderer is `GetPointInfo` (`PagePoint`), so the proofs about line structure do not depend on how a point is rendered.
- `Results`: the list items of the results page and their count.
- `Home`: the list items of the home page and their count.

## Model

| member | source | states |
|---|---|---|
| Js.IntToString | src/pages/details.ts:26 | The shortest decimal text of an integer: a leading minus exactly for negative values, then at least one digit, with no leading zero (only `0` itself starts with `0`, and `-0` never occurs), reading back (`SignedValue`) as the integer |
| Js.NatToString | src/utils/index.ts:16 | The shortest decimal text of a natural number: digits only, no leading zero, one character exactly below 10, reading back as the number |
| Js.RoundDiv | src/pages/details.ts:25 | `Math.round(a / b)` for b > 0 is the integer r with `2br - b <= 2a < 2br + b`, i.e. the nearest integer with halves rounded up |
| Js.JsRem | src/utils/index.ts:15 | JavaScript `%` truncates: for a non-negative dividend it is the ordinary remainder in [0, b); for a negative one it is minus the remainder of the dividend's magnitude, in (-b, 0] |
| Js.Prefix | src/pages/home.ts:29 | `substring(0, k)` has length min(k, \|s\|) and is a prefix of s |
| Js.PadStart2 | src/utils/index.ts:16 | `padStart(2, '0')` keeps s as the suffix, pads only with zeros and reaches length 2 |
| Utils.Delay | src/pages/details.ts:18-25 | With no scheduled time the delay is 0; otherwise it is the whole number of minutes nearest to actual minus scheduled, within half a minute |
| Utils.DelaySuffix | src/pages/details.ts:26 | The marker is empty exactly when the delay is not positive; otherwise it is `(+`, then the delay's shortest decimal text (`NatToString`, so no leading zero), then `)` |
| Utils.FormatDuration | src/utils/index.ts:12-17 | The text always ends in `h` and has at least 5 characters. For seconds >= 0 it is `<h>:<mm>h`: h is the shortest decimal text of the hours (`NatToString`, no leading zero), mm is two digits below 60, and h * 60 + mm is the whole number of minutes, `floor(seconds / 60)` |
| Utils.HoursColonMinutes | src/utils/index.ts:16 | Helper: the text `<hs>:<mm>h` reads back as hs before the colon and mm between the colon and the final `h` |
| Utils.DurationText | src/utils/index.ts:16 | Helper: in `<hs>:<mm>h`, the text before the colon and the two digits before `h` denote the hours and minutes, giving h * 60 + m minutes |
| Utils.TwoDigitMinutes | src/utils/index.ts:15-16 | A minute count below 60, padded, is exactly two digits that read back as itself |
| Utils.SummaryDelay | src/utils/index.ts:26-33 | The summary compares the itinerary start with the first leg's scheduled start; when that is missing the delay is 0 |
| Utils.TransferLabel | src/utils/index.ts:50 | `Dir` exactly when there are no transfers; otherwise the count's shortest decimal text (`IntToString`, no leading zero) followed by `x` |
| Utils.FindNonWalk | src/utils/index.ts:42 | `find`: the index of the first leg that is not a walk, every earlier leg being a walk, or the length when all are walks |
| Utils.MainLegIndex | src/utils/index.ts:42 | The main leg is the first non-walk leg; it is leg 0 only when that leg is not a walk or every leg is a walk |
| Utils.TrainName | src/utils/index.ts:43 | Display name, else trip short name, else `N/A` (empty strings fall through); never empty |
| Utils.SummaryTrack | src/utils/index.ts:47 | Real-time track, else scheduled track, else `?`; never empty |
| Utils.SummaryLayout | src/utils/index.ts:54 | Helper: a line built as start, delay, ` - `, end, ` \| `, minutes, `min \| `, transfers and tail reads back as those parts by position (`LaidOut`) |
| Utils.Summary | src/utils/index.ts:23-54 | Read by position, the line is: the formatted start; the delay marker of the summary delay (so a `(` follows the start exactly when that delay is positive); ` - ` and the formatted end; ` \| `, the rounded minutes of the duration and `min \| `; the transfer label; and ` \| <train> \| Pl. <track>` of the main leg |
| Utils.ExtractItinerarySummaries | src/utils/index.ts:20-21 | Exactly one line per itinerary, in input order, each its summary |
| Details.TruncateName | src/pages/details.ts:30-33 | A name of at most 45 characters is unchanged; a longer one becomes its first 42 characters and `...`, exactly 45 long |
| Details.PlatformSuffix | src/pages/details.ts:35-36 | ` Pl.` and the real-time track, else ` Pl.` and the scheduled track, else nothing |
| Details.GetPointInfo | src/pages/details.ts:12-40 | `fullStr` is `timeStr`, a space and `nameStr`. The time is the formatted time then the delay marker, longer exactly when the delay is positive, and just the formatted time when no schedule is given. The name is the truncated name then the platform suffix |
| Details.ModeLabel | src/pages/details.ts:62-66 | `Walk` for a walk; otherwise display name, else trip short name, else the mode |
| Details.ModeLine | src/pages/details.ts:58-68 | `  \|   `, the label, ` (`, the rounded minutes of the leg's duration and `min)` |
| Details.MergedLine | src/pages/details.ts:87-93 | The arrival's full line when both times agree; otherwise, by position, the arrival time, ` - `, the next departure time, a space and the arrival name, with exactly that length |
| Details.IntervalLayout | src/pages/details.ts:92 | Helper: the waiting-interval text `<t> - <nt> <n>` reads back as its parts by position |
| Details.ViewLeg | src/pages/details.ts:72-97 | Leg i merges with the next (`Merges`, the one definition of the condition) exactly when it is neither a walk nor the last leg and its arrival name equals the next departure name |
| Details.ViewLegFields | src/pages/details.ts:53-97 | Helper: each field of a leg's view is the rendered departure, mode line, arrival, merge condition and merged line of that leg |
| Details.ViewsWellFormed | src/pages/details.ts:72-86 | Helper: only a leg that is neither a walk nor the last one ever sets the skip flag |
| Details.ExtractLegDetails | src/pages/details.ts:43-105 | The page's detail lines are exactly the leg-by-leg specification with endpoints rendered by GetPointInfo |
| Details.ExtractLegDetailsWith | src/pages/details.ts:44-104 | The loop with the skip flag emits exactly the blocks of all legs, one after the other |
| Details.BlockOf | src/pages/details.ts:52-68 | Helper: one iteration appends the leg's departure (unless skipped), its mode line and its arrival (unless elided) |
| Details.LinesCount | src/pages/details.ts:48-101 | The lines number 3 per leg, less one per merge and one per walk that is not last |
| Details.LinesBounds | src/pages/details.ts:48-101 | A non-empty itinerary gives between 2L + 1 and 3L lines |
| Details.ModeLineAt | src/pages/details.ts:68 | Every leg's mode line appears at its mode position |
| Details.LinesFirst | src/pages/details.ts:52-55 | The first line is the first leg's departure, and the first mode line is the second line |
| Details.LinesLast | src/pages/details.ts:98-101 | The last line is the last leg's arrival, just after its mode line |
| Details.BetweenModeLines | src/pages/details.ts:72-97 | Between consecutive mode lines stand: the merged line alone, or the next departure alone after a walk, or the arrival and then the next departure |
| Details.CountsAgree | src/pages/details.ts:72-86 | Helper: the merges and non-final walks counted on the legs are those counted on the views |
| Details.DetailsLineCount | src/pages/details.ts:48-101 | The detail lines of any itinerary number 3L - m - w (m merges, w non-final walks), and between 2L + 1 and 3L when L > 0 |
| Details.DetailsEnds | src/pages/details.ts:46-55 | No legs give no lines; otherwise the first line is the first departure and the last line is the last arrival, even when the last leg is a walk |
| Details.DetailsModeLines | src/pages/details.ts:58-68 | Every leg's mode line appears, in leg order |
| Details.ModePosIncreasing | src/pages/details.ts:48-68 | The mode lines of later legs come strictly later |
| Details.DetailsJoinAfterWalk | src/pages/details.ts:72-74 | After a non-final walk, the next departure stands alone between the two mode lines |
| Details.DetailsJoinMerged | src/pages/details.ts:80-93 | When a leg merges with the next, only the merged line stands between the two mode lines, and the next departure is not shown |
| Details.DetailsJoinApart | src/pages/details.ts:94-97 | Otherwise the arrival and then the next departure stand between the two mode lines |
| Details.WalkThenRide | src/pages/details.ts:48-101 | A walk followed by a ride gives exactly: walk departure, walk mode line, ride departure, ride mode line, ride arrival |
| Details.TwoLegsWalkFirst | src/pages/details.ts:48-101 | The two-leg walk-first block structure, stated on views |
| Results.ResultItems | src/pages/results.ts:23-24 | No itineraries give exactly `No connections found`; otherwise item i is itinerary i's summary, one item per itinerary |
| Results.ItemCount | src/pages/results.ts:30 | The count is the number of items: never zero, and the number of itineraries when there are any |
| Home.ConnectionLabel | src/pages/home.ts:29 | Each station name is cut to 30 characters around ` -> `, so the line has at most 64 characters; names of at most 30 appear unchanged |
| Home.ConnectionLabels | src/pages/home.ts:29 | One label per saved connection, in order |
| Home.ConnectionNames | src/pages/home.ts:28-30 | No saved connections give exactly `Add Connections in App`; otherwise one label per connection in order; every line has at most 64 characters |
| Home.ItemCount | src/pages/home.ts:36 | The count is the number of names: never zero, and the number of connections when there are any |

## Left out

- `formatTime` (src/utils/index.ts:4-10) renders an instant in the `de-DE` locale and the `Europe/Berlin` time zone. It is an arbitrary function from instants to strings (`TimeFormatter`). Every property here holds for any formatter.
- Instants arrive as ISO 8601 strings and are parsed with `new Date`. The model takes them as integer milliseconds. A scheduled time that is present but the empty string is falsy in JavaScript and would fall back to the actual time; the model represents only a missing one (`None`).
- JavaScript numbers are floating point. Durations, timestamps and transfer counts are integers here, so rounding of fractional inputs and precision loss on huge values are not modelled.
- String lengths in JavaScript count UTF-16 code units. Here they count Dafny characters, so the 45- and 30-character cuts can differ on text outside the Basic Multilingual Plane.
- Rendering to the glasses is not modelled:
  - the `RebuildPageContainer`, `ListContainerProperty` and bridge calls;
  - `console.log`;
  - the container geometry in `renderDetails`, `renderResults` and `renderHome`.
- src/App.tsx (configuration UI), src/main.tsx (event loop and navigation), src/motis.ts (planner HTTP client) and the `PLACES` constants of src/config.ts are not part of this model.
- Utils.Summary, Utils.ExtractItinerarySummaries, Results.ResultItems and Results.ItemCount require every itinerary to have at least one leg. With no legs the source reads `displayName` of `undefined` and throws, so no line exists to model.
- Utils.FormatDuration: the `<h>:<mm>h` shape is stated for seconds >= 0 only. For negative input the function follows the source (floor division, then a truncating remainder), but only the final `h` and the minimum length are claimed there.
- Details.ExtractLegDetailsWith differs slightly in structure from the source. The arrival branch first picks the one arrival line and pushes it once, where the source pushes in each branch. The lines pushed are the same.
