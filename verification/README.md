# Anime automation dashboard: the planning, grouping and display logic in Dafny

This project is a Dafny model of the pure logic inside a small Next.js dashboard. The dashboard builds
weekly watch plans from AniList's seasonal catalog and shows the coming week's airing schedule.
The logic falls into three groups:

- **The weekly watch-plan builder** (`buildAutomationPlan` and the month→season table of
  `getCurrentSeason`, pages/api/automation.js).
  - The catalog is ranked with a stable sort. The sort is descending by popularity when the focus
    is `"popularity"` and by average score otherwise; a missing value counts as 0.
  - Finished titles are skipped unless completed titles are included.
  - Each remaining title goes, first fit, onto the first of seven weekdays whose quota is still
    positive. It receives `min(quota, ceil(total / 7))` episodes, where `total` is
    `episodes ?? nextAiringEpisode.episode ?? 12`. The day's quota drops by the same amount.
  - The days that received something are emitted from Monday to Sunday.
- **The day aggregator** (`groupByDay`, pages/api/schedule.js).
  - Each airing event is filed under the UTC calendar date of its airing time, written
    `YYYY-MM-DD` as `toISOString().slice(0, 10)` does.
  - The date keys keep first-seen order. Each bucket keeps input order.
  - Each event is reduced to the five fields the page reads.
- **The page's display helpers** (pages/index.js): the countdown label, the weekly bar chart, the
  genre-filter toggle, the title fallback chain and the synopsis shown on a trending card.

Modules:

| module | file | contents |
|---|---|---|
| `Wrappers` | wrappers.dfy | `Option` |
| `Decimal` | decimal.dfy | decimal digits, zero padding, number-to-text and its reading back |
| `CivilDate` | civil_date.dfy | day number → proleptic Gregorian date (sections 15.9.1.3 to 15.9.1.5 of ECMA-262 5.1), the ISO date text of section 15.9.1.15 |
| `Media` | media.dfy | catalog records, JavaScript truthiness of optional strings, the title fallback |
| `Seqs` | seqs.dfy | order-preserving subsequences, multiset cancellation, splitting the head off a concatenation |
| `Ranking` | ranking.dfy | the stable descending sort, with its characterisation |
| `Automation` | automation.dfy | the plan builder as a left fold over the ranked catalog |
| `PlanProperties` | plan_properties.dfy | the fold's invariant and the end-to-end guarantees of the plan |
| `PlanPlacement` | plan_placement.dfy | which titles the plan holds: each at most once, the top-ranked one first on Monday |
| `Schedule` | schedule.dfy | the airing records and the grouping reduce |
| `ScheduleProperties` | schedule_properties.dfy | the grouping's guarantees |
| `Display` | display.dfy | the page helpers |

Design notes:

- Integers are unbounded. JavaScript numbers here are whole episode counts, scores, popularity
  values and epoch seconds, so they are modelled as `int`.
- `Math.ceil(t / 7)` is written out exactly with Euclidean division.
- The plan builder's mutable day objects become a sequence of seven `DaySlot(day, slots, quota)`
  values. The `forEach` loop becomes a left fold. The final `forEach` becomes `Emit`.
- The object `groupByDay` returns has keys like `2024-05-06`. These are not array indices, so the
  properties keep insertion order (section 9.1.12 of ECMA-262 6th edition). The object is
  therefore modelled as an ordered sequence of `DayBucket(key, items)`.
- The reduce is modelled in two steps. First the callback's key and projection are computed for
  each event (`Tag`). Then a fold over those keyed records runs (`Group`). `GroupByDay` is their
  composition.
- Stability of `Array.prototype.sort` (required since ECMA-262 2019) is modelled by insertion sort.
  It is characterised independently:
  - the result is a permutation;
  - the result is non-increasing in the key;
  - each key's run keeps input order;
  - a ranked arrangement with the same per-key runs is unique (`Ranking.RankedUnique`).

## Model

| member | source | states |
|---|---|---|
| Automation.BuildAutomationPlan | pages/api/automation.js:31-88 | The plan has at most seven days and none of them is empty. Its other properties are the PlanProperties and PlanPlacement rows below. |
| Automation.TotalEpisodes | pages/api/automation.js:55 | `episodes ?? nextAiringEpisode?.episode ?? 12`. A present episode count is used even when it is 0. Only an absent count falls through to the next airing's episode number, and only when that is absent too does the total become 12. |
| Automation.SeasonOfMonth | pages/api/automation.js:3-10 | Months 3–5 give SPRING, 6–8 SUMMER, 9–11 FALL, 12, 1 and 2 WINTER: the season list indexed by (month mod 12) div 3; any other month value falls through to WINTER. |
| Automation.CeilDiv7 | pages/api/automation.js:66 | `Math.ceil(t / 7)` for integer `t`: the least `r` with `t <= 7r`, for negative `t` as well. |
| Automation.FairShare | pages/api/automation.js:66 | `Math.min(quota, Math.ceil(total / 7))`: at most each of the two and equal to one of them. |
| Automation.FirstOpenDay | pages/api/automation.js:60-61 | The day chosen is the first, from Monday on, whose quota is positive; all earlier days have quota ≤ 0; none is chosen exactly when every quota is ≤ 0. |
| Automation.Skipped | pages/api/automation.js:56-58 | Only a FINISHED title is ever skipped, and nothing is skipped when completed titles are included. |
| Automation.EligibleMembers | pages/api/automation.js:56-58 | A title survives the filter exactly when it is in the catalog and is not skipped. |
| Automation.PlaceItem | pages/api/automation.js:54-75 | One loop iteration leaves the days unchanged exactly when the title is skipped or every quota is ≤ 0. Otherwise only the first open day changes: it gains one entry built from the title with the fair-share episode count, and its quota drops by exactly that count. |
| Automation.PlaceAll | pages/api/automation.js:54-75 | Running the loop over the ranked titles keeps the seven days and their labels, and each day's entries only grow at the end: the initial entries stay a prefix. The quota accounting and the provenance of the entries are the `PlanProperties.PlaceAllConsistent` row. |
| Automation.Emit | pages/api/automation.js:78-85 | Only days that received at least one entry appear in the plan, and the plan is never longer than the week. |
| Automation.EmitFromSlots | pages/api/automation.js:78-85 | Each emitted day is one of the slots, with its day name and entries unchanged. |
| Automation.EmitComplete | pages/api/automation.js:78-85 | Every slot that received an entry is emitted. |
| Automation.EmitOrder | pages/api/automation.js:78-85 | The emitted days keep the slots' weekday order. |
| Automation.EmitCount | pages/api/automation.js:78-85 | The plan holds exactly as many entries as the slots did. |
| PlanProperties.PlaceAllConsistent | pages/api/automation.js:33-75 | The placement loop's invariant after every prefix of the ranked catalog: the seven days keep their labels; each day's quota plus the episodes placed on it equals `episodesPerDay`; a day with entries has a quota ≥ 0, and with `episodesPerDay <= 0` no day has entries; each day's entries are made, in order, from a subsequence of the eligible titles processed; no entry is a skipped title; entries never outnumber the eligible titles processed. |
| PlanProperties.PlanWithinQuota | pages/api/automation.js:60-73 | On every emitted day the entries' episodes sum to at most `episodesPerDay`. |
| PlanProperties.PlanDayOrder | pages/api/automation.js:78-85 | The emitted day labels are a subsequence of Monday…Sunday, and every emitted day has at least one entry. |
| PlanProperties.PlanEmptyWithoutQuota | pages/api/automation.js:60-61 | With `episodesPerDay <= 0` the plan is empty. |
| PlanProperties.PlanSkipsFinished | pages/api/automation.js:56-58 | Without `includeCompleted`, no entry has status FINISHED. |
| PlanPlacement.PlanIncludesFinished | pages/api/automation.js:54-58 | With `includeCompleted` the filter keeps every title. Each day's entries come, in order, from the ranked catalog, finished titles included. With a positive quota, the top-ranked title opens Monday whatever its status. |
| PlanProperties.EligibleAll | pages/api/automation.js:56-58 | With `includeCompleted` the eligibility filter is the identity. |
| PlanProperties.PlanEntryBound | pages/api/automation.js:54-75 | The plan has at most as many entries as there are eligible titles, which are at most the catalog. |
| PlanPlacement.PlanSinglePlacement | pages/api/automation.js:54-75 | Single placement: the multiset of entry ids across all days is contained in the multiset of eligible catalog ids, and so in the catalog's ids. A title is placed on at most one day (the `break` at line 74) and never twice on one. |
| PlanPlacement.PlanIdsOnce | pages/api/automation.js:54-75 | When catalog ids are distinct, no id appears twice anywhere in the plan. |
| PlanPlacement.PlanStartsWithTop | pages/api/automation.js:54-75 | With a positive quota, a top-ranked title that is not skipped is Monday's first entry, with `min(quota, ceil(total / 7))` episodes. |
| PlanProperties.PlanRankedOrder | pages/api/automation.js:54-75 | Each day's entries are made, one for one and in order, from a subsequence of the ranked eligible titles. |
| PlanProperties.PlanFiltersFirst | pages/api/automation.js:39-58 | Filtering finished titles inside the loop after sorting gives the same plan as filtering them out before sorting. |
| PlanProperties.PlaceZeroTotal | pages/api/automation.js:55-73 | A title whose episode total is 0 still gets an entry with 0 episodes on the first open day, and that day's quota stays as it was. |
| Ranking.FocusOf | pages/api/automation.js:46 | The comparator sorts by popularity exactly when the focus is the string `"popularity"`; any other focus sorts by score. |
| Ranking.RankKey | pages/api/automation.js:42-49 | The sort key is the popularity or the average score, as the focus selects, and a missing value counts as 0. |
| Ranking.Rank | pages/api/automation.js:39-50 | The ranked catalog is a permutation of the input and is non-increasing in the focus key (popularity for focus `"popularity"`, else average score, missing as 0). |
| Ranking.RankStable | pages/api/automation.js:45-50 | Stability: for every key value, the titles with that key appear in the same relative order as in the input. |
| Ranking.RankedUnique | pages/api/automation.js:45-50 | Two ranked sequences with the same per-key runs are equal, so the stable descending order is uniquely determined. |
| Media.DisplayTitle | pages/index.js:320-322 | `english || romaji || "Untitled"`: the English title when non-empty, else the romaji title when non-empty, else "Untitled"; never empty. |
| Media.PlanTitle | pages/api/automation.js:64 | The same chain behind optional chaining: a missing title record gives "Untitled". |
| CivilDate.CivilFromDays | pages/api/schedule.js:24-25 | The date of day number `n ≥ 0` is valid, lies in the year whose first day is ≤ `n` < the next year's first day, and maps back to `n`. |
| CivilDate.CivilRoundTrip | pages/api/schedule.js:24-25 | Every valid date from 1970 on is the date of exactly one day number, the one it maps to. |
| CivilDate.FormatDateRoundTrip | pages/api/schedule.js:25 | The ISO text is ten characters with dashes at positions 4 and 7, and it reads back as the same date. |
| CivilDate.DateKey | pages/api/schedule.js:24-25 | The key of an airing time is ten characters with dashes at positions 4 and 7, the `YYYY-MM-DD` prefix of the ISO text. |
| CivilDate.DateKeyParses | pages/api/schedule.js:24-25 | The key of airing time `t` is `YYYY-MM-DD` text that reads back as the calendar date of `t`'s UTC day. |
| CivilDate.SameKeyIffSameDay | pages/api/schedule.js:24-25 | Two airing times get the same key exactly when `floor(t / 86400)` is equal. |
| CivilDate.EpochDayKey | pages/api/schedule.js:24-25 | Second 0 is keyed `1970-01-01`. |
| Decimal.Padded | pages/api/schedule.js:25 | A number below `10^width` written with exactly `width` digits reads back as itself. |
| Decimal.NatToString | pages/index.js:45 | A whole number's decimal text is non-empty, has no leading zero and reads back as the number. |
| Schedule.KeyOf | pages/api/schedule.js:24-25 | An event's key is ten characters and reads back as the UTC calendar date of `floor(airingAt / 86400)`. |
| Schedule.Project | pages/api/schedule.js:31-37 | The pushed record drops the `id` and carries `mediaId`, `episode`, `airingAt`, `timeUntilAiring` and `media` unchanged. |
| Schedule.IndexOfKey | pages/api/schedule.js:27 | The bucket found for a key is the first with that key; none is found exactly when the key is absent. |
| Schedule.AddToBucket | pages/api/schedule.js:27-37 | An existing key's first bucket gains the record at its end, and no other bucket changes. A new key appends one bucket holding just the record. |
| Schedule.GroupByDay | pages/api/schedule.js:22-41 | There are never more buckets than events, so an empty input gives an empty grouping. |
| ScheduleProperties.GroupKeys | pages/api/schedule.js:22-41 | After every prefix of the keyed input, the bucket keys are distinct, are exactly the keys seen so far, and appear in first-seen order. |
| ScheduleProperties.GroupBuckets | pages/api/schedule.js:22-41 | After every prefix of the keyed input, each bucket is non-empty and equals the input's records with its key, in input order. |
| ScheduleProperties.GroupPartition | pages/api/schedule.js:22-41 | After every prefix of the keyed input, the buckets together hold exactly the input's records, as a multiset. |
| ScheduleProperties.GroupByDayBuckets | pages/api/schedule.js:23-37 | Each day's bucket is non-empty and equals that day's events, projected, in input order. |
| ScheduleProperties.GroupByDayKeys | pages/api/schedule.js:27-29 | Keys are distinct, each is some event's date, every event's date is a key, and keys appear in the order their dates first occur. |
| ScheduleProperties.GroupByDayPartition | pages/api/schedule.js:22-40 | The buckets together are a permutation of the projected events, so their sizes sum to the number of events. |
| ScheduleProperties.GroupByDayPlacesEvent | pages/api/schedule.js:24-37 | Every event's projection lies in the bucket keyed by its own date. |
| Display.FormatTimeUntil | pages/index.js:41-49 | "Now" exactly for negative seconds. Below one day it is the whole hours (0–23) then "h". From one day on it is the whole days (≥ 1) then "d". The number has no leading zero, as `${hours}` writes it. The days are computed through whole hours, and that agrees with `floor(s / 86400)`. |
| Display.BuildChartData | pages/index.js:60-77 | One label and one bar per plan day, in plan order. The label is the day's first three characters, or the whole name when it is shorter. The bar is the day's episodes plus one for each entry with 0 episodes. |
| Display.DayTotalCounts | pages/index.js:62-64 | A day's bar is the sum of its entries' episodes plus one for each entry with 0 episodes. |
| Display.DayTotalAtLeastEntries | pages/index.js:62-64 | With no negative counts, a day's bar is at least its number of entries. |
| Display.ChartLabels | pages/index.js:61 | For a plan in week order, the labels are three-letter weekday abbreviations in week order. |
| Display.ChartBars | pages/index.js:62-64 | If every day's episodes fit a budget, each bar exceeds it by at most that day's zero-episode entries. |
| Display.ChartOfPlan | pages/index.js:60-77 | The chart of an automation plan has labels that form a subsequence of Mon…Sun, and no bar exceeds `episodesPerDay` by more than the day's zero-episode entries. |
| Display.RemoveAll | pages/index.js:222 | Filtering out a genre removes every copy of it, keeps every other genre's count and keeps the order of what remains. |
| Display.ToggleGenre | pages/index.js:220-225 | The toggled genre is selected afterwards exactly when it was not before. All other genres keep their counts. A selected genre is removed in place. An unselected one is appended at the end. |
| Display.ToggleTwiceAbsent | pages/index.js:220-225 | Clicking an unselected genre twice restores the selection exactly. |
| Display.ToggleTwicePresent | pages/index.js:220-225 | Clicking a selected genre twice leaves the others in order and the genre once, at the end. |
| Display.ToggleKeepsDistinct | pages/index.js:220-225 | A selection without repeats has none after a toggle. |
| Display.ReplaceBreaks | pages/index.js:384 | Replacing `<br>` never lengthens the text, and text without `<` is unchanged. |
| Display.ReplaceBreaksPlain | pages/index.js:384 | Text in which no `<br>` begins passes through unchanged, whatever follows it. Other markup such as `<b>` or `<a href>` is copied as it is. |
| Display.ReplaceBreaksSplit | pages/index.js:384 | Text with no `<br>` in it, then `<br>`, then the rest becomes the plain text, a space, and the rest with its own `<br>`s replaced. |
| Display.NoBreakLeft | pages/index.js:384 | No `<br>` is left in the result. |
| Display.StripItalics | pages/index.js:385 | Removing `<i>` and `</i>` never lengthens the text, and text without `<` is unchanged. |
| Display.StripItalicsPlain | pages/index.js:385 | Text in which no `<i>` or `</i>` begins passes through unchanged, whatever follows it. Other markup such as `<b>`, `<p>` or `<br>` is kept. |
| Display.StripItalicsSplit | pages/index.js:385 | Text with no `<i>` or `</i>` in it, then `<i>` or `</i>`, then the rest becomes the plain text and the rest with its own tags deleted. |
| Display.OtherMarkupKept | pages/index.js:384-385 | Examples: `<b>x</b>` survives both replacements, and `<br>` survives the italics removal. |
| Display.StripItalicsSinglePass | pages/index.js:385 | The tags are deleted in one left-to-right pass, as a global `replace` does: `<<i>i>` becomes `<i>`. |
| Display.SynopsisAsWritten | pages/index.js:383-387 | As written. A missing description gives "No synopsis available.". A description of at most 180 characters is shown cleaned. A cleaned text over 180 characters is cut to 180 and followed by "…". A cleaned text of at most 180 characters whose raw description is over 180 is shown whole, followed by "…". |
| Display.Synopsis | pages/index.js:383-387 | Corrected. The ellipsis appears exactly when the cleaned text was cut: the whole cleaned text when it fits in 180 characters, else its first 180 characters and "…". |
| Display.SynopsisPlainText | pages/index.js:383-387 | On descriptions without markup, the page's expression and the corrected one agree. |
| Display.EllipsisWhenCut | pages/index.js:386-387 | Whenever the cleaned text really is cut, the page's expression agrees with the corrected one. |
| Display.EllipsisWithoutCut | pages/index.js:386-387 | Counterexample: `<i>` followed by 178 letters is 181 characters raw and 178 cleaned; the page shows all 178 and still appends "…". |

## Left out

- Network I/O and HTTP transport are not modelled: `fetchAniList`, the GraphQL query strings, the
  `handler` functions (method checks, status codes, JSON parsing of the body, `Date.now()`
  timestamps).
- pages/api/trending.js and next.config.js are not part of this model. The first only forwards an
  upstream query; the second is framework configuration.
- The clock reading in `getCurrentSeason` is not modelled. The UTC month is a parameter of
  `Automation.SeasonOfMonth`.
- `formatDate` and `new Date(dateKey).toLocaleDateString()` are not modelled, because their output
  depends on locale and time zone.
- The React component, hooks, SWR fetching, Chart.js registration and options, and image rendering
  are not modelled, because they are UI.
- Schedule.KeyOf: requires `0 <= airingAt < 253402300800`. The upper bound is the source's: from
  year 10000 on, `toISOString` switches to the six-digit extended-year form and later throws. The
  lower bound is the model's: times before 1970 would still get ordinary four-digit keys, but the
  day-number model starts at the epoch. The upstream query asks only for airings after the
  current time (pages/api/schedule.js:58), so earlier times do not arrive.
- Media.DisplayTitle: takes a present title record. The page reads `title.english` without
  optional chaining (pages/index.js:320-322, 370, 380), so a null `media` or `title` makes rendering
  throw a TypeError. For that reason `Schedule.MediaSummary.title` and `AiringSchedule.media` are
  not optional, and the model represents neither a missing record passed through by `groupByDay`
  nor the crash. The planner's `media.title?.english` is modelled with an optional record, by
  `Media.PlanTitle`.
- Non-integer or non-numeric JavaScript values are not modelled. This covers fractional seconds
  or episode counts, `NaN` (which `|| 1` would also turn into 1), and strings where numbers are
  expected.
- Display.FormatTimeUntil: takes whole seconds. The page's `Math.floor` on a fractional count is
  not modelled.
- String lengths are not UTF-16 code-unit counts. Dafny's `char` is a Unicode scalar value, while
  JavaScript's `length` and `slice` count UTF-16 code units, so `Display.Take`,
  `Display.Synopsis` and `Display.SynopsisAsWritten` (whose `|d| > 180` test reads
  `description.length`) count characters outside the Basic Multilingual Plane once rather than twice.
- The chart's fixed dataset label and colours are constants of the UI and are not modelled.
- Regular-expression matching is modelled only for the two fixed patterns used, as a left-to-right,
  non-overlapping scan.

## Findings

| source | as written | input that shows it | evidently intended | confidence | as-written member | corrected member |
|---|---|---|---|---|---|---|
| pages/index.js:386-387 | The ellipsis is appended when the raw description is longer than 180 characters, but the text shown is the cleaned description. Cleaning shortens it: `<br>` becomes one space and italics tags disappear. | `<i>` followed by 178 letters (181 characters raw, 178 cleaned): all 178 letters are shown and "…" is still appended. | The ellipsis marks a cut: it appears exactly when the cleaned text is longer than 180 characters. | medium, not executed | Display.SynopsisAsWritten, Display.EllipsisWithoutCut | Display.Synopsis |
