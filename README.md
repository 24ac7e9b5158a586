# Performance map and calendar: a Dafny model

This project models the logic of a small web application that tracks live
performances (concerts and festivals) across the provinces of China. It has
React views and two back ends. The first is an Express server over a MySQL
`performances` table. The second is a serverless handler over a Mongo
collection. The model covers:

- **Province keys.** The regular-expression pass that removes administrative
  words from a province name, and the trimmed key the map views join on.
- **Aggregations of the statistics page.** The total, the per-month counts in
  calendar order, and the top-ten artists and provinces (a count, a stable
  descending sort and a slice). It also covers the click filters.
- **The two maps.** The bounding box over the exterior rings of the GeoJSON
  features, and the uniform-scale projection into an 800 x 600 canvas with a
  padding of 40. It also covers the SVG path commands, the province centre,
  the bucketing of events by province, the artist search across buckets, and
  the fill-colour priority.
- **The list, grid, calendar and timeline views.**
  - List: type counts, the type filter and its toggle, grouping by artist,
    and the venue pop-up.
  - Grid: bubble sizes and one frame of the bubble animation, with
    trigonometry as inputs.
  - Calendar: the cells of the month grid, and the month change and day
    click.
  - Timeline: the 120-day strip, the month labels, the offset of today's
    card, the chips and the scroll arrows.
- **Request handling.** The upload filter and stored file name, and POST
  with `|| null` coercion and the required-field check (400). It also covers
  PUT with its generated `UPDATE ... SET` statement, and DELETE and PUT
  answering 404 for a missing row. For the serverless handler it covers the
  OPTIONS, GET, POST and 405 dispatch with its headers.
- **The two entry forms.** Single-field updates, the payload of truthy
  fields, and the loading, error and reset transitions.

Dates are proleptic Gregorian day numbers (1970-01-01 is day 0). Map
coordinates are exact `real`s. The MySQL table (`PerformanceTable`), the
Mongo collection (`PerformanceStore`) and the stateful views (`MapView`,
`CalendarView`, `TimelineView`, `BubbleField`, `UpdateFormView` and
`UpdateDataView`) are classes whose methods update their fields as the
handlers and event callbacks do. The statistics page, the China map and the
performance list are functions of their props and state: a click there,
such as `ToggleType` or `VenueClick`, is a function from the old state to
the new.
Effects the code cannot see are parameters: whether the database carries
out a statement, the clock, `Math.random`, `Math.sin`/`cos`/`atan2`/`sqrt`,
and the size of the container.

Modules, one per source file, plus shared ones:

- `Collections`: filter, group-by and count-by-key into insertion-ordered
  objects, stable sort, slice.
- `CivilCalendar`: the part of `Date` the views use.
- `Events`: the event record, parsed dates and month labels.
- `Http`: status codes.
- `ProvinceName`, `StatisticsView`, `MapGeometry`, `PerformanceMap`,
  `ChinaMap`, `PerformanceInfo`, `PerformanceGrid`, `PerformanceCalendar`,
  `PerformanceTimeline`, `PerformanceServer`, `PerformancesApi`,
  `EntryForm`, `UpdateForm` and `UpdateData`.

The province normalisation is a single left-to-right pass of the global
replace, and it is not idempotent: `ProvinceName.StripNotIdempotent` shows
自治省区 → 自治区 → "". The statistics page does not trim the stripped name;
the two map views do.

## Model

| member | source | states |
|---|---|---|
| Collections.Filter | src/components/StatisticsView.jsx:171 | the filter keeps exactly the elements that pass, each from the input, never more than the input |
| Collections.Having | src/components/StatisticsView.jsx:171 | selecting by key keeps exactly the elements whose key is k, each from the input |
| Collections.FilterPartition | src/components/PerformanceGrid.jsx:33-37 | two complementary filters split a sequence: the multisets of the two parts add up to the input's |
| Collections.Dedup | src/components/StatisticsView.jsx:108 | the keys of a counting object are the distinct keys seen, each once, and no others |
| Collections.DedupSnoc | src/components/StatisticsView.jsx:125-128 | counting one more element appends its key exactly when the key is new |
| Collections.DedupFirstAppearance | src/components/StatisticsView.jsx:125-128 | the keys come in order of first appearance: a key listed before another occurs before every occurrence of the later one |
| Collections.Entries | src/components/StatisticsView.jsx:131 | `Object.entries` lists each key with its value, in key order |
| Collections.GroupByShape | src/components/PerformanceInfo.jsx:51-58 | a reduce-into-arrays makes one group per distinct key in first-appearance order; each group is exactly the elements with that key, in input order, and non-empty |
| Collections.Tally | src/components/StatisticsView.jsx:125-128 | a reduce-into-counters has one counter per distinct key, equal to the number of elements with that key and positive |
| Collections.TallyTotal | src/components/StatisticsView.jsx:101-106 | the counters of a count-by-key add up to the number of elements counted |
| Collections.GroupSizesMap | src/components/PerformanceMap.jsx:119-128 | the size of each group of a group-by is the counter of the same key |
| Collections.GroupSizesTotal | src/components/PerformanceMap.jsx:119-128 | the groups of a group-by hold as many elements as the input, so none is lost |
| Collections.InsertBy | src/components/StatisticsView.jsx:136 | inserting into a sorted list keeps it sorted and adds exactly the one element |
| Collections.SortBy | src/components/StatisticsView.jsx:136 | the comparator sort returns a permutation of its input, sorted by the rank |
| Collections.SortStable | src/components/StatisticsView.jsx:131-136 | the sort is stable: elements of equal rank keep their input order |
| Collections.Take | src/components/StatisticsView.jsx:137 | `slice(0, n)` is the prefix of length min(n, length) |
| Collections.SumCountsPermutation | src/components/StatisticsView.jsx:150-152 | reordering (key, count) entries does not change their sum |
| Collections.EntriesTotal | src/components/StatisticsView.jsx:108 | the entries of a counting object add up to the total of its counters |
| CivilCalendar.DaysInMonth | src/components/PerformanceCalendar.jsx:15-19 | a month has 28 to 31 days, and 29 exactly for February of a leap year |
| CivilCalendar.Weekday | src/components/PerformanceCalendar.jsx:17 | `getDay()` is 0 to 6 |
| CivilCalendar.WeekdayStep | src/components/PerformanceCalendar.jsx:64-86 | the next day has the next weekday, Saturday wrapping to Sunday, so consecutive cells fill the 日..六 columns in turn |
| CivilCalendar.WeekdayWeek | src/components/PerformanceCalendar.jsx:64-86 | days seven apart have the same weekday, so each grid column holds one weekday |
| CivilCalendar.EpochIsThursday | src/components/PerformanceCalendar.jsx:17 | day 0 is 1970-01-01, a Thursday |
| CivilCalendar.DayNumberInjective | src/components/PerformanceCalendar.jsx:38 | two valid dates with the same day number are the same date, so comparing `toDateString()` is comparing day numbers |
| CivilCalendar.NextDayStep | src/components/PerformanceCalendar.jsx:82-85 | the day after a valid date is valid and one day number later |
| CivilCalendar.NextMonthStart | src/components/PerformanceCalendar.jsx:15 | the first of the next month is DaysInMonth days after the first of this one |
| CivilCalendar.ShiftMonth | src/components/PerformanceCalendar.jsx:25-27 | the (year, month) delta months away has month 1..12 and month index moved by exactly delta |
| CivilCalendar.MonthIndexInjective | src/components/PerformanceCalendar.jsx:25-27 | a month index names one (year, month) |
| CivilCalendar.AddDays | src/components/PerformanceTimeline.jsx:20-21 | `setDate(getDate() + k)` gives the valid date k day numbers later |
| CivilCalendar.AddMonthsAsWritten | src/components/PerformanceCalendar.jsx:25-27 | `setMonth` with day overflow gives a valid date |
| CivilCalendar.AddMonthsAsWrittenDay | src/components/PerformanceCalendar.jsx:25-27 | the overflowing shift lands day-1 days after the first of the target month, whatever the overflow |
| CivilCalendar.AddMonthsAsWrittenSkips | src/components/PerformanceCalendar.jsx:22-31 | 31 January plus one month is 3 March: the shift skips February |
| CivilCalendar.AddMonthsClamped | src/components/PerformanceCalendar.jsx:22-31 | the intended shift moves the month index by exactly delta and keeps the day, clamped to the month's length |
| CivilCalendar.ShiftsAgree | src/components/PerformanceCalendar.jsx:22-31 | both shifts agree whenever the day exists in the target month |
| Events.ParsedDate | src/components/StatisticsView.jsx:103 | a stored calendar date parses to itself exactly when it is valid; `new Date(null)` is the epoch; an unparsable date is invalid; every parsed date is valid |
| Events.MonthLabel | src/components/StatisticsView.jsx:103 | the long month label is 一月..十二月 of the parsed month, and "Invalid Date" exactly for an unparsable date |
| Events.EventsOn | src/components/PerformanceCalendar.jsx:36-39 | the events of a day are exactly those whose parsed date falls on it |
| Events.Chips | src/components/PerformanceCalendar.jsx:116-129 | the first `limit` labels are shown, and a "+N" count appears exactly when there are more, with labels plus N the number of events |
| Http.Code | api/performances.js:15-70 | the codes are 200, 400, 404, 405 and 500 for the five statuses: below 300 exactly for success, 4xx exactly for the three client errors |
| Http.Success | src/performance-server/server.js:82-96 | the `success` flag is true exactly on a 200 answer |
| ProvinceName.MatchLength | src/components/StatisticsView.jsx:145 | a match at the front of the name is one of the six tokens |
| ProvinceName.MatchLengthComplete | src/components/StatisticsView.jsx:145 | whenever one of the six tokens stands at the front of the name, the alternation matches exactly that token |
| ProvinceName.Strip | src/components/StatisticsView.jsx:145 | the global replace never makes the name longer |
| ProvinceName.StripIsSubsequence | src/components/StatisticsView.jsx:145 | the key is the name with some characters deleted |
| ProvinceName.StripFixedIff | src/components/StatisticsView.jsx:145 | a name is unchanged exactly when no token occurs in it |
| ProvinceName.StripQualified | src/components/PerformanceMap.jsx:173-175 | a plain short name followed by qualifier tokens reduces to the short name |
| ProvinceName.StripNotIdempotent | src/components/StatisticsView.jsx:145 | one pass is not idempotent: 自治省区 gives 自治区, which gives "" |
| ProvinceName.StripAutonomousRegion | src/components/StatisticsView.jsx:145 | 宁夏回族自治区 gives 宁夏 |
| ProvinceName.StripSpecialRegion | src/components/StatisticsView.jsx:145 | 香港特别行政区 gives 香港 |
| ProvinceName.StripProvince | src/components/StatisticsView.jsx:145 | 广东省 gives 广东 |
| ProvinceName.Trim | src/components/PerformanceMap.jsx:173-175 | `trim()` is a slice of the name with no white space at either end |
| ProvinceName.MapKey | src/components/ChinaMap.jsx:96-98 | the map key is no longer than the name and starts and ends with a non-space |
| StatisticsView.MonthOrdinal | src/components/StatisticsView.jsx:114-116 | the month table gives 1..12 to the twelve labels, and 13, after them, exactly to any other label |
| StatisticsView.MonthOrdinalOfLabel | src/components/StatisticsView.jsx:114-116 | the table maps each month label to its month number |
| StatisticsView.MarketStatsCounts | src/components/StatisticsView.jsx:100-119 | the total is the number of events; each month bar counts exactly the events with its label; the bars add up to the total, cover every label and are in month order |
| StatisticsView.MonthlyInCalendarOrder | src/components/StatisticsView.jsx:113-117 | two bars of valid dates come in calendar-month order, not in order of first appearance |
| StatisticsView.RankingShape | src/components/StatisticsView.jsx:125-136 | the ranking has one bar per distinct key with its count; the counts sum to the number of events; it is non-increasing; equal counts keep `Object.entries` order |
| StatisticsView.RankingSorted | src/components/StatisticsView.jsx:136 | the bars are in non-increasing order of count |
| StatisticsView.TopTen | src/components/StatisticsView.jsx:137-152 | the top list has min(10, distinct keys) bars, sorted, with exact counts, and a key left out has no more events than any key in it |
| StatisticsView.ArtistStatsTopTen | src/components/StatisticsView.jsx:123-140 | the artist chart is the top ten of artist counts, each bar counting the events an artist click lists |
| StatisticsView.ProvinceStatsTopTen | src/components/StatisticsView.jsx:143-157 | the province chart is the top ten of stripped province keys, each bar counting the events a province click lists |
| StatisticsView.ClickSelectsExactly | src/components/StatisticsView.jsx:171-182 | a click lists exactly the events whose key equals the clicked key |
| MapGeometry.ExtentOfBounds | src/components/PerformanceMap.jsx:60-89 | the bounds are "no points" exactly for no positions; otherwise every position lies inside and each side is reached by a position |
| MapGeometry.GetBounds | src/components/PerformanceMap.jsx:60-89 | the nested loops compute the extent of all exterior-ring positions of the Polygon and MultiPolygon features |
| MapGeometry.ExtendByFeature | src/components/PerformanceMap.jsx:67-85 | one feature extends the bounds by its exterior ring(s) only |
| MapGeometry.ExtendByRing | src/components/ChinaMap.jsx:19-24 | one ring's loop extends the bounds by its positions |
| MapGeometry.BoundsContainExterior | src/components/ChinaMap.jsx:11-40 | every exterior position of every feature lies inside the bounds |
| MapGeometry.MakeFrame | src/components/PerformanceMap.jsx:11-17 | a frame exists exactly for a box with some extent; its scale is `Math.min(scaleX, scaleY)` of 720/width and 520/height, the one finite scale when an axis has zero extent, and so at most both |
| MapGeometry.ProjectUniform | src/components/PerformanceMap.jsx:16-21 | one scale on both axes: x order is kept, y order is reversed |
| MapGeometry.ProjectInCanvas | src/components/ChinaMap.jsx:43-56 | a position inside the bounds projects into [40, 760] x [40, 560] |
| MapGeometry.RingPath | src/components/PerformanceMap.jsx:97-102 | a ring gives one M, then one L per further position, then Z |
| MapGeometry.RingPathCounts | src/components/PerformanceMap.jsx:97-102 | a ring's path has one Z, at its end, and one M exactly when the ring is not empty |
| MapGeometry.MultiPathSubpaths | src/components/PerformanceMap.jsx:103-112 | a MultiPolygon draws one M...Z subpath per member polygon |
| MapGeometry.PathVisitsExterior | src/components/ChinaMap.jsx:59-83 | the path visits exactly the projections of the exterior positions, in order |
| MapGeometry.PathInCanvas | src/components/PerformanceMap.jsx:92-116 | drawn with its map's own frame, every vertex of every path lies in the padded canvas |
| MapGeometry.PathOfUndrawn | src/components/PerformanceMap.jsx:113-115 | any other geometry type gives the empty path |
| MapGeometry.ProvinceCenter | src/components/PerformanceMap.jsx:27-44 | the centre is the mean of the projected exterior positions (see CenterInside) |
| MapGeometry.CenterInside | src/components/PerformanceMap.jsx:27-44 | the centre exists exactly when there are positions, and lies in any box holding all the projected positions |
| MapGeometry.MeanBetween | src/components/PerformanceMap.jsx:40-43 | a mean of points lies between any bounds of the points |
| PerformanceMap.HasArtistPerformance | src/components/PerformanceMap.jsx:149-152 | true exactly when an artist is selected and some event in the province's bucket is by that artist |
| PerformanceMap.HasPerformances | src/components/PerformanceMap.jsx:313 | true exactly when the province has a non-empty bucket |
| PerformanceMap.BucketByProvince | src/components/PerformanceMap.jsx:171-181 | the loop builds exactly the buckets of the events, one push at a time |
| PerformanceMap.AddToBucket | src/components/PerformanceMap.jsx:176-179 | a push creates the bucket on first use and appends the event |
| PerformanceMap.BucketsAreGroups | src/components/PerformanceMap.jsx:171-181 | the buckets are a group-by, on the stripped and trimmed key, of the events with a province |
| PerformanceMap.BucketsPartition | src/components/PerformanceMap.jsx:171-181 | events without a province are skipped; every other event is in the bucket of its key; buckets keep input order |
| PerformanceMap.PushByArtist | src/components/PerformanceMap.jsx:137-141 | the inner loop appends exactly the bucket's events by the artist |
| PerformanceMap.CollectArtist | src/components/PerformanceMap.jsx:135-142 | the outer loop collects the artist's events bucket by bucket, in key order |
| PerformanceMap.ArtistAcrossMembers | src/components/PerformanceMap.jsx:135-142 | an event is collected exactly when it is by the artist and lies in some bucket |
| PerformanceMap.ArtistClickFindsAll | src/components/PerformanceMap.jsx:131-146 | after loading, an artist click lists exactly the artist's events that have a province |
| PerformanceMap.Fill | src/components/PerformanceMap.jsx:321-329 | red when the artist plays there or the province is selected, else grey with events, else dark |
| PerformanceMap.VenueGroupsPartition | src/components/PerformanceMap.jsx:119-128 | each event is in the group of its venue key, and the groups hold as many events as the list |
| PerformanceMap.VenueDefault | src/components/PerformanceMap.jsx:121 | a venue-less event sits under 未设置场馆 |
| PerformanceMap.MapView.constructor | src/components/PerformanceMap.jsx:47-55 | the page starts with no buckets, no selection and the card unflipped |
| PerformanceMap.MapView.LoadEvents | src/components/PerformanceMap.jsx:183 | the page's data becomes the buckets of the fetched events |
| PerformanceMap.MapView.ArtistClick | src/components/PerformanceMap.jsx:131-146 | the artist is selected, the card flips, and the list is the artist's events across the buckets |
| PerformanceMap.MapView.MapClick | src/components/PerformanceMap.jsx:196-202 | a click on the background clears the artist and its list; any other click changes nothing |
| PerformanceMap.MapView.ProvinceClick | src/components/PerformanceMap.jsx:204-219 | the province is selected with its bucket; choosing a different province clears the artist |
| PerformanceMap.MapView.ProvinceFill | src/components/PerformanceMap.jsx:309-329 | red exactly when the selected artist plays there or the province is selected; gray exactly when neither and there are events; dark exactly when neither and no events |
| ChinaMap.Fill | src/components/ChinaMap.jsx:106-114 | exactly one of four colours, in priority order: artist show, selected province, has events, otherwise idle |
| ChinaMap.NoArtistColourWithoutShow | src/components/ChinaMap.jsx:86-89 | without a selected artist, or for a province without a bucket, the fill is never the artist colour |
| PerformanceInfo.TypeKey | src/components/PerformanceInfo.jsx:40 | a missing type counts as 其他; a given type as itself |
| PerformanceInfo.ArtistKey | src/components/PerformanceInfo.jsx:52 | a missing artist groups as 未知艺人; a given artist as itself |
| PerformanceInfo.TypeFilter | src/components/PerformanceInfo.jsx:46-48 | no selection keeps all events; a selection keeps exactly those whose type equals it |
| PerformanceInfo.Render | src/components/PerformanceInfo.jsx:30-58 | an absent or empty list gives only the placeholder; otherwise the type counts sum to the list length and every group holds its artist's filtered events |
| PerformanceInfo.TypeStatsCounts | src/components/PerformanceInfo.jsx:39-43 | one button per type with the number of events of that type; the counts sum to the list length |
| PerformanceInfo.NoEmptyType | src/components/PerformanceInfo.jsx:40 | no event counts under the empty type |
| PerformanceInfo.OtherCountsUntyped | src/components/PerformanceInfo.jsx:40-47 | the 其他 button counts the untyped events too, but selecting it keeps only the events typed 其他 |
| PerformanceInfo.ToggleType | src/components/PerformanceInfo.jsx:69 | clicking the selected type clears it; any other click selects the clicked type |
| PerformanceInfo.ToggleTwice | src/components/PerformanceInfo.jsx:46-69 | two clicks on one button restore the unfiltered list |
| PerformanceInfo.ArtistGroupsPartition | src/components/PerformanceInfo.jsx:51-58 | each filtered event is in exactly the group of its artist key, groups in order, none lost |
| PerformanceInfo.VenueClick | src/components/PerformanceInfo.jsx:22-28 | the pop-up names the venue and lists exactly the events at it |
| PerformanceGrid.BubbleSize | src/components/PerformanceGrid.jsx:28 | the size is 40..120: 40 for counts up to 2, 120 from 6, 20 per count between |
| PerformanceGrid.WithSizes | src/components/PerformanceGrid.jsx:25-29 | each bubble entry carries its artist, count and clamped size |
| PerformanceGrid.ArtistStatsShape | src/components/PerformanceGrid.jsx:14-30 | one bubble per artist with the number of its events, counts sum to the events, non-increasing, each sized by BubbleSize |
| PerformanceGrid.ArtistsListed | src/components/PerformanceGrid.jsx:14-30 | every artist with an event has a bubble |
| PerformanceGrid.ArtistPerformancesShape | src/components/PerformanceGrid.jsx:33-37 | the opened bubble lists exactly the artist's events, each as often as in the input, dated ones first in ascending date order |
| PerformanceGrid.ArtistPerformancesCount | src/components/PerformanceGrid.jsx:33-37 | the list is a permutation of the artist's events |
| PerformanceGrid.ArtistPerformancesMembers | src/components/PerformanceGrid.jsx:35 | an event is listed exactly when it is by the artist |
| PerformanceGrid.ArtistPerformancesOrder | src/components/PerformanceGrid.jsx:36 | dated events come before undated ones, in ascending date order |
| PerformanceGrid.DeltaFactor | src/components/PerformanceGrid.jsx:72 | the time factor is elapsed/16, capped at 2 |
| PerformanceGrid.WrapPhase | src/components/PerformanceGrid.jsx:89 | JavaScript `phase % (Math.PI * 2)`: the result has the sign of the phase and lies within one period of zero |
| PerformanceGrid.WrapPhaseWholePeriods | src/components/PerformanceGrid.jsx:89 | the phase and its wrapped value differ by a whole number of periods |
| PerformanceGrid.Trunc | src/components/PerformanceGrid.jsx:89 | an integer within one of its argument, on the side of zero (the truncation inside JavaScript `%`) |
| PerformanceGrid.PointerForce | src/components/PerformanceGrid.jsx:101-106 | the pointer force is zero from a distance of 150 on, and between 0 and 0.8 |
| PerformanceGrid.Drift | src/components/PerformanceGrid.jsx:97-110 | out of the pointer's reach, the velocity only gains the floating term |
| PerformanceGrid.Bounced | src/components/PerformanceGrid.jsx:114-130 | a coordinate past a wall is put on it and its velocity negated and scaled by 0.3; one inside is unchanged; the result never passes the far wall |
| PerformanceGrid.Bounce | src/components/PerformanceGrid.jsx:114-130 | the two wall checks of one axis compute exactly Bounced |
| PerformanceGrid.Stepped | src/components/PerformanceGrid.jsx:84-143 | one step keeps artist, count, size and colour, and advances the phase by deltaTime x 0.01 modulo 2π |
| PerformanceGrid.SteppedInside | src/components/PerformanceGrid.jsx:114-130 | a stepped bubble lies within the padded walls of the container |
| PerformanceGrid.SteppedMotion | src/components/PerformanceGrid.jsx:111-135 | on each axis the new coordinate is the old one plus 0.6 of the drifted velocity, or the wall it crossed; the new velocity is the drifted one, times -0.3 after a bounce, damped by 0.98 |
| PerformanceGrid.StepBubble | src/components/PerformanceGrid.jsx:84-143 | the callback's assignments compute exactly Stepped |
| PerformanceGrid.BlueShade | src/components/PerformanceGrid.jsx:40-44 | saturation 60..100 and lightness 30..60, with the busiest artist at (100, 30) and no events at (60, 60) |
| PerformanceGrid.BlueShadeMonotone | src/components/PerformanceGrid.jsx:40-44 | more events give a saturation at least as high and a lightness at least as low |
| PerformanceGrid.StepAll | src/components/PerformanceGrid.jsx:83-145 | the map gives as many bubbles, each the Stepped image of the bubble at its place, so each keeps its identity, lands inside the walls and advances its phase |
| PerformanceGrid.BubbleField.constructor | src/components/PerformanceGrid.jsx:7-10 | no bubbles, and the last frame time is now |
| PerformanceGrid.BubbleField.UpdateBubbles | src/components/PerformanceGrid.jsx:70-148 | without a container nothing moves; with one, every bubble is replaced by its Stepped image for the capped time factor, so it keeps its identity, lands inside the walls and advances its phase; the frame time becomes now |
| PerformanceCalendar.SixthRow | src/components/PerformanceCalendar.jsx:81-82 | the grid has more than 35 cells exactly for a 31-day month starting on Friday or Saturday, or a 30-day month starting on Saturday, and never more than 37 |
| PerformanceCalendar.PerformancesByDate | src/components/PerformanceCalendar.jsx:34-40 | no date gives nothing; otherwise exactly the events on that day |
| PerformanceCalendar.CellChips | src/components/PerformanceCalendar.jsx:116-129 | at most two venue chips, and "+N" exactly when the day has more than two |
| PerformanceCalendar.CalendarView.constructor | src/components/PerformanceCalendar.jsx:5-8 | the view opens on today's month with nothing selected and the list closed |
| PerformanceCalendar.CalendarView.GenerateCalendarDays | src/components/PerformanceCalendar.jsx:64-86 | max(35, weekday + days) consecutive cells starting weekday days before the 1st; exactly the middle run is the current month |
| PerformanceCalendar.CalendarView.MonthChange | src/components/PerformanceCalendar.jsx:22-31 | the month on show moves back or on by exactly one and the selected cell is cleared |
| PerformanceCalendar.CalendarView.DateClick | src/components/PerformanceCalendar.jsx:43-61 | the day is always selected and reported; the list opens with that day's events only when there are some |
| PerformanceCalendar.CalendarView.CloseModal | src/components/PerformanceCalendar.jsx:180-194 | the list closes and nothing else changes |
| PerformanceTimeline.TimelineStart | src/components/PerformanceTimeline.jsx:15-16 | the strip starts one month before today, day overflow included, on a valid date |
| PerformanceTimeline.GetDates | src/components/PerformanceTimeline.jsx:12-25 | 120 consecutive valid days from the start; the argument is ignored |
| PerformanceTimeline.TodayAfterStart | src/components/PerformanceTimeline.jsx:15-16 | today lies as many days after the start as the previous month has days |
| PerformanceTimeline.FindDate | src/components/PerformanceTimeline.jsx:87-89 | `findIndex` gives the first index of the day, or -1 exactly when it is absent |
| PerformanceTimeline.TodayOnStrip | src/components/PerformanceTimeline.jsx:87-91 | today is always on the strip, so its offset is (days of the previous month) x 102 |
| PerformanceTimeline.MonthLabelWhereMonthChanges | src/components/PerformanceTimeline.jsx:161 | along the strip the month label shows exactly where the month changes |
| PerformanceTimeline.CardPerformances | src/components/PerformanceTimeline.jsx:30-35 | a card holds exactly the events on its day |
| PerformanceTimeline.VenueLabel | src/components/PerformanceTimeline.jsx:193-195 | a venue-less event shows 未知场馆; others their venue |
| PerformanceTimeline.CardChips | src/components/PerformanceTimeline.jsx:188-202 | at most three non-empty chips, and "+N" exactly when the day has more than three |
| PerformanceTimeline.ScrollAmount | src/components/PerformanceTimeline.jsx:38-43 | left scrolls by -200, right by +200 |
| PerformanceTimeline.ArrowsAtEnds | src/components/PerformanceTimeline.jsx:46-51 | at the start the left arrow is hidden, at the end the right one; while the strip can scroll by more than 10 some arrow shows, and with 10 or less the right arrow never shows |
| PerformanceTimeline.TimelineView.constructor | src/components/PerformanceTimeline.jsx:6-7 | before any scroll only the right arrow shows |
| PerformanceTimeline.TimelineView.ScrollPosition | src/components/PerformanceTimeline.jsx:46-51 | the left arrow shows iff scrollLeft > 0, the right iff scrollLeft < scrollWidth - clientWidth - 10 |
| PerformanceServer.OrNull | src/performance-server/server.js:70-76 | a missing or empty field becomes NULL; any other its text |
| PerformanceServer.AcceptsUploadIff | src/performance-server/server.js:31-34 | the filter accepts exactly the names ending in .jpg, .jpeg, .png or .gif |
| PerformanceServer.AcceptsUploadExamples | src/performance-server/server.js:31 | the match is case-sensitive and anchored at the end |
| PerformanceServer.LastDot | src/performance-server/server.js:21 | the index of the last dot, or none exactly when there is no dot |
| PerformanceServer.ExtName | src/performance-server/server.js:21 | the extension is empty or a dot-led ending of the name |
| PerformanceServer.StoredName | src/performance-server/server.js:20-21 | the stored name starts with the unique suffix |
| PerformanceServer.StoredNameKeepsExtension | src/performance-server/server.js:20-31 | an accepted name with something before the dot is stored as suffix plus its image ending |
| PerformanceServer.DotNameLosesExtension | src/performance-server/server.js:21-31 | a file called ".png" passes the filter but is stored with no extension |
| PerformanceServer.PosterPath | src/performance-server/server.js:77 | the poster path is /api/uploads/ followed by the file name |
| PerformanceServer.InsertData | src/performance-server/server.js:69-78 | every text column is the body field through `\|\| null`; the poster is the path of the file, or NULL |
| PerformanceServer.RequiredFields | src/performance-server/server.js:81-86 | the check passes exactly when artist, type and province are present and non-empty |
| PerformanceServer.InsertValues | src/performance-server/server.js:88-91 | exactly 8 values are bound, in column order artist..poster |
| PerformanceServer.InsertRoundTrip | src/performance-server/server.js:88-91 | the stored row is exactly the record built from the request |
| PerformanceServer.UpdateData | src/performance-server/server.js:219-232 | the seven text keys in order, plus poster exactly when a file came |
| PerformanceServer.ValuesOf | src/performance-server/server.js:244 | `Object.values` lists each key's value in key order |
| PerformanceServer.UpdateParams | src/performance-server/server.js:251 | the parameters are the values followed by the id |
| PerformanceServer.SetClausePlaceholders | src/performance-server/server.js:247 | the SET clause has one placeholder per key |
| PerformanceServer.SqlPlaceholders | src/performance-server/server.js:245-249 | the statement has one placeholder per key, plus the WHERE one |
| PerformanceServer.UpdatePlaceholders | src/performance-server/server.js:243-251 | the statement has as many placeholders as parameters are bound |
| PerformanceServer.Assign | src/performance-server/server.js:247 | `column = value` changes that column only |
| PerformanceServer.ApplySetColumns | src/performance-server/server.js:245-251 | after the UPDATE, a column in the clause holds its new value and every other is unchanged |
| PerformanceServer.UpdateKeepsPoster | src/performance-server/server.js:229-232 | an update without a file leaves the stored poster as it was |
| PerformanceServer.Filename | src/performance-server/server.js:30-35 | a stored name exists exactly for a file that passes the filter |
| PerformanceServer.PerformanceTable.constructor | src/performance-server/server.js:56 | the table starts empty |
| PerformanceServer.PerformanceTable.Post | src/performance-server/server.js:64-107 | a rejected file gives 500; a missing required field gives 400; a failed statement gives 500; all three leave the table unchanged. Otherwise 200 and exactly one new row, holding the coerced values, under a fresh id |
| PerformanceServer.PerformanceTable.Put | src/performance-server/server.js:217-272 | 500 for a rejected file, 400 without a required field, 500 when the statement fails, 404 for an absent id, each leaving the table unchanged; otherwise only that row is updated by the SET clause |
| PerformanceServer.PerformanceTable.SetRow | src/performance-server/server.js:251 | only the given row is replaced |
| PerformanceServer.PerformanceTable.Delete | src/performance-server/server.js:169-195 | an absent id gives 404 and no change; otherwise exactly that row is removed |
| PerformancesApi.Optional | api/performances.js:34-49 | an optional field is kept exactly when present |
| PerformancesApi.Decide | api/performances.js:14-67 | OPTIONS is answered before any connection; no connection gives the error; GET lists; POST rejects exactly a missing artist, type or province; a complete POST is saved exactly when the save succeeds and a given date is readable, and fails otherwise; a saved document holds the fields, with date null iff absent or empty; other methods are not allowed |
| PerformancesApi.NewestFirst | api/performances.js:24-26 | GET returns a permutation of the documents, newest first |
| PerformancesApi.StatusOf | api/performances.js:15-70 | 200 for preflight, list and save; 400 for a rejected POST; 405 for other methods; 500 for errors |
| PerformancesApi.HeadersOf | api/performances.js:5-62 | every answer carries the CORS headers; `Allow: GET, POST` exactly on 405 |
| PerformancesApi.PerformanceStore.constructor | api/performances.js:1 | the collection starts empty |
| PerformancesApi.PerformanceStore.Handle | api/performances.js:3-75 | the status and headers of the decision; only a successful POST appends, and GET answers newest first |
| PerformancesApi.PreflightFirst | api/performances.js:14-66 | a preflight succeeds with the database down; an unknown method gets 500 without a connection and 405 with one |
| EntryForm.WithText | src/components/UpdateForm.jsx:22-28 | the named field takes the value and every other field keeps its own |
| EntryForm.WithPoster | src/components/UpdateForm.jsx:33-36 | only the poster changes |
| EntryForm.Entries | src/components/UpdateForm.jsx:112 | `Object.keys(formData)` in declaration order, each with its value |
| EntryForm.BuildPayload | src/components/UpdateForm.jsx:111-116 | the append loop produces exactly the truthy entries in key order |
| EntryForm.PayloadExactlyTruthy | src/components/UpdateData.jsx:62-67 | an entry is sent exactly when it is a field of the form with a truthy value |
| EntryForm.BlankPayload | src/components/UpdateForm.jsx:122-130 | a blank form sends nothing |
| EntryForm.ServerSeesForm | src/performance-server/server.js:70-76 | the server reads each text field the user left empty as NULL and every other as its text |
| UpdateForm.UpdateFormView.constructor | src/components/UpdateForm.jsx:8-20 | a blank form, not loading, no preview, no error |
| UpdateForm.UpdateFormView.InputChange | src/components/UpdateForm.jsx:22-28 | only the named field changes |
| UpdateForm.UpdateFormView.FileChange | src/components/UpdateForm.jsx:30-41 | poster and preview change only when a file was chosen |
| UpdateForm.UpdateFormView.BeginSubmit | src/components/UpdateForm.jsx:105-116 | loading on, error off, and the payload is the truthy entries |
| UpdateForm.UpdateFormView.FinishSubmit | src/components/UpdateForm.jsx:118-141 | success resets the form and preview; a thrown request keeps the input and shows the error; loading always ends |
| UpdateForm.UpdateFormView.ErrorTimeout | src/components/UpdateForm.jsx:100-103 | the timer hides the error and changes nothing else |
| UpdateForm.SubmitRound | src/components/UpdateForm.jsx:105-142 | a full submit posts the old form's payload, ends not loading, and after success the form sends nothing |
| UpdateData.UpdateDataView.constructor | src/components/UpdateData.jsx:7-18 | a blank form, not loading, no preview, no alert |
| UpdateData.UpdateDataView.InputChange | src/components/UpdateData.jsx:20-26 | only the named field changes |
| UpdateData.UpdateDataView.FileChange | src/components/UpdateData.jsx:28-39 | poster and preview change only when a file was chosen |
| UpdateData.UpdateDataView.BeginSubmit | src/components/UpdateData.jsx:57-67 | loading on, and the payload is the truthy entries |
| UpdateData.UpdateDataView.FinishSubmit | src/components/UpdateData.jsx:69-92 | success resets the form and preview; a thrown request keeps the input and shows one alert; loading always ends |

## Left out

- Events.Event: a missing text field is "". The artist, type and province are never null in the model, because both handlers reject a request without them (src/performance-server/server.js:81 and :235, api/performances.js:36). Records written to the database by other means are not part of this model; for them the views would throw on `province.replace` or count the artist under "null".
- Network, database and file I/O: the axios and fetch calls, the MySQL pool, multer's disk storage and the Mongo connection and schema. Whether a statement or save succeeds is a boolean parameter of each handler.
- The 5 MB upload limit: file sizes are not modelled, because multer enforces the limit before the handler runs.
- `GET /api/status`, `GET /api/performances`, `/api/performances/province/:province`, `/api/performances/artist/:artist` and `/api/artists` of the Express server. They are plain SELECTs with no logic of their own. The ordering of the serverless GET is modelled.
- PerformanceServer.PerformanceTable.Put and Delete: the id is an integer. A non-numeric `:id` (which matches no row in MySQL) is not modelled.
- PerformanceServer.ExtName: `path.extname` is modelled for names without a path separator.
- PerformanceServer.UpdateSql: the line breaks and indentation around the statement are reduced to single spaces. The SQL text is not otherwise parsed.
- PerformanceServer.PerformanceTable.Post: AUTO_INCREMENT ids are modelled as a counter that starts at 1, and MySQL's `created_at` column is not modelled.
- PerformancesApi.Decide: `new Date(text)` is a parameter. A date it cannot read is taken to fail the save, which gives 500. Mongo's own validation, the server-side `created_at` default and the document id are not modelled beyond the clock parameter. A failing GET query counts as a failed connection.
- PerformancesApi.Decide: the body is a map from field names to strings. It cannot express a POST without a parsed body, where `req.body` is undefined and the destructuring at api/performances.js:34 throws into the 500 answer; the nearest the model has is an empty map, which it answers with 400. It cannot express non-string JSON values either, such as a numeric `artist`, which the handler would accept as truthy.
- PerformancesApi.NewestFirst: documents with the same `created_at` keep their stored order. Mongo's `sort` promises no order among them.
- `Math.sin`, `Math.cos`, `Math.atan2`, `Math.sqrt` and `Math.random` in the bubble animation are inputs of each frame. Floating-point rounding is not modelled: numbers are exact reals.
- PerformanceGrid.ArtistPerformances: an event whose date `new Date` cannot read makes the comparator NaN, and the engine decides where it goes. The model puts such events after the dated ones, in list order. Dates are compared by day: the time of day in a stored date is not modelled.
- PerformanceGrid.PointerForce: the push direction comes from the angle input. The model states the magnitude, not that the push points away from the pointer.
- PerformanceGrid.BubbleField.UpdateBubbles: the requestAnimationFrame and cancelAnimationFrame loop, the drag handlers and the initial random placement are left out. One call is one frame.
- The `setTimeout` confetti and sun animations, and `window.timelineScrollToToday`. These are scheduling and a global hook, not state.
- Locale text: `toLocaleDateString` is modelled only for the long month label (一月..十二月, or "Invalid Date"). The weekday labels and `toDateString` text are compared as day numbers.
- StatisticsView.MonthlyInCalendarOrder: stated only for bars of valid dates. The comparator of an "Invalid Date" bar is NaN, and where the engine puts it is unspecified. The model sorts it after the twelve months.
- Collections.Tally, GroupByShape and Dedup: keys keep insertion order. JavaScript lists integer-like keys first; a name made only of digits is not modelled.
- Collections.SortBy: modelled as a stable insertion sort. The engine's sort is stable, and only stability and sortedness are stated.
- MapGeometry.RingPath: a path is a sequence of M, L and Z commands over exact coordinates. The number formatting, the `join(' ')` and the `'Z '` separators with the final `trim()` are not modelled.
- MapGeometry.GetBounds and MapGeometry.ProvinceCenter: both require every Polygon to have an exterior ring. In JavaScript `getBounds` and `getProvinceCenter` have no `catch`, so a Polygon without ring 0 throws and the map fails to render. That throw is not modelled. `GeneratePath` models its `catch`.
- MapGeometry.MakeFrame: for a box with zero extent on both axes, or no positions at all, JavaScript projects every point to NaN. The model has no frame there and draws nothing.
- PerformanceCalendar.CalendarView.GenerateCalendarDays: the isToday and isSelected styling, and the rendering of cells, are left out.
- PerformanceCalendar.CalendarView.DateClick: the modal position comes from the DOM and is not modelled. `onDateSelect` is recorded as the list of dates reported.
- PerformanceCalendar.CalendarView.MonthChange uses the corrected month shift (see Findings). The shift exactly as written is AddMonthsAsWritten.
- Rendering, JSX, CSS and the presentational components: Layout, App, ServicesPage, ServiceCard, ArtistPerformanceSidebar, ProvincePerformanceCard, RecentPerformances and ProvincePerformances.
- The configuration files `src/config/api.js`, `src/config/db.js` and `api/db.js`, which hold no logic. The duplicate server in `src/config/db.js` is not part of this model.

## Findings

| source | as written | input that shows it | evidently intended | confidence | as-written member | corrected member |
|---|---|---|---|---|---|---|
| src/components/PerformanceCalendar.jsx:22-31 | `newDate.setMonth(newDate.getMonth() + 1)` keeps the day of the month, and a day past the end of the target month overflows into the month after | the view shows 31 January 2025 and the user clicks "next": `setMonth(1)` gives 31 February, which is 3 March, so February is skipped | the next button shows the next month: the month index moves by exactly one, with the day clamped to the month's length | not executed | CivilCalendar.AddMonthsAsWritten, CivilCalendar.AddMonthsAsWrittenSkips | CivilCalendar.AddMonthsClamped, used by PerformanceCalendar.CalendarView.MonthChange |
