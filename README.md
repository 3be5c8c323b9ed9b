# MyTracker core logic in Dafny

MyTracker (`com.mmu.mytracker`) is an Android transit app for the Klang
Valley MRT and bus network. Most of it is glue around maps, location,
places and a cloud database. This project models the small pieces of
deterministic logic underneath, with the clock, distances and every remote
call made parameters:

- **Next departures** (`TimeUtils`, `time_utils.dfy`). A service leaves its
  depot at a first time "HH:mm" and then every `freq` minutes. A station sees
  each departure `offset` minutes later.
  - `getNextThreeTrains` walks 100 timetable slots and keeps the first three
    that are not before now. It is a `for` loop proved against a function.
  - `getMinutesUntilNextTrain` takes the first of them.
  - `formatTimeDisplay` writes the waiting time as text.
  - The list is in timetable order, not closeness order. After a wrap past
    midnight, the "next" train reported can be a later one;
    `NextThreeTrainsNotSoonestFirst` gives a concrete case.
- **Polyline decoding** (`Polyline`, `polyline.dfy`). This is
  `MainActivity.decodePolyline`, which implements the Encoded Polyline
  Algorithm Format. Kotlin's 32-bit `Int` operators are written out: `or`,
  `shl` with its count masked, arithmetic `shr`, `inv`, and wrapping `+`.
  - The source's nested loops are proved equal to a recursive decoder.
  - The decoder in turn is proved to produce one point per pair of chunks,
    each point the running sum of the deltas.
- **Route tracking** (`RouteTracking`, `main_activity.dfy`). The
  `isRouteFetched` / `lastStationName` fields of `MainActivity` decide when
  the driving route is fetched again. These cover `checkActiveTracking`,
  `stopTracking`, `updateTrackingLogic` and `fetchAndDrawRoute`, with the
  request's outcome as a parameter.
- **Recent searches** (`SearchHistory`, `search_history.dfy`). This is
  `SearchHistoryManager`: most recent first, one entry per name, at most ten.
- **Tracked route store** (`ActiveRoute`, `active_route.dfy`). This is
  `ActiveRouteManager` over a string map.
- **Timetable fields** (`Model`, `model.dfy`). These are `StationService`'s
  text-backed `frequency_min` and `offset_min`, together with the `Station`
  and `RecentPlace` records.
- **Station matching**:
  - the 350 m candidate search of `SearchActivity` (`PlaceSearch`,
    `search_activity.dfy`);
  - the four nearest stations of a transport type in `NearbyFragment`
    (`NearbyStations`, `nearby_fragment.dfy`);
  - the stable sort by distance both use (`Ranking`, `ranking.dfy`).
- **Crowd reports**:
  - the shared submission rules (`ReportForm`, `report_form.dfy`);
  - the station lists of the report bottom sheet (`ReportSheet`,
    `report_bottom_sheet.dfy`) and of the report screen (`ReportScreen`,
    `report_fragment.dfy`).
- **Alert cards** (`Alerts`, `alert_adapter.dfy`). These are the title, age
  and message texts of `AlertAdapter`.

`strings.dfy` holds the pieces of Kotlin's string library the code relies on:
- `Integer.parseInt` and `toString`;
- case-insensitive `equals` and `contains`;
- `compareTo` and `sorted()` on strings.

`wrappers.dfy` holds `Option`.

Objects whose fields the source updates become classes:
- `StationService`;
- the route store and the history store;
- the tracker, the nearby screen, the two report screens and the alert
  adapter.

Each class's methods state their new state through a pure function. The
properties are proved as lemmas about those functions.

One difference between the code and its own messages: `handleSelectedPlace`
tells the user that no station lies "within 500m", but its threshold is
350 m. The model follows the threshold.

## Model

| member | source | states |
|---|---|---|
| Strings.ParseIntOfIntToString | app/src/main/java/com/mmu/mytracker/data/model/StationService.kt:36-38 | the decimal text of any 32-bit `Int` parses back, with `Integer.parseInt`'s rules, to that `Int` |
| Strings.IntToStringInjective | app/src/main/java/com/mmu/mytracker/utils/TimeUtils.kt:63-64 | different integers have different decimal texts |
| Strings.ParseInt | app/src/main/java/com/mmu/mytracker/data/model/StationService.kt:32 | `toInt()`: an optional leading `-` or `+`, then one or more ASCII digits and nothing else, with a value inside the 32-bit `Int` range; any other text is no number |
| Strings.EqualsIgnoreCase | app/src/main/java/com/mmu/mytracker/ui/view/fragment/NearbyFragment.kt:148 | `equals(…, ignoreCase = true)`: the same length, and equal characters once A-Z are folded to lower case |
| Strings.ContainsIgnoreCase | app/src/main/java/com/mmu/mytracker/ui/view/fragment/ReportBottomSheetFragment.kt:106-107 | `contains(…, ignoreCase = true)`: some window of the text equals the keyword, ignoring case |
| Strings.SortStrings | app/src/main/java/com/mmu/mytracker/ui/view/fragment/ReportBottomSheetFragment.kt:109 | `sorted()` returns the names in ascending `compareTo` order, each exactly as often as in the input |
| Strings.SortedStringsUnique | app/src/main/java/com/mmu/mytracker/ui/view/fragment/ReportBottomSheetFragment.kt:109 | two sorted arrangements of the same names are equal, so any correct `sorted()` gives the list `SortStrings` gives |
| Model.IntOrZeroOfIntToString | app/src/main/java/com/mmu/mytracker/data/model/StationService.kt:36-38 | a field holding the text of an `Int` reads back as that `Int` |
| Model.StationService.constructor | app/src/main/java/com/mmu/mytracker/data/model/StationService.kt:9-23 | a service holds the given id, name, type, direction, first and last train and timetable texts |
| Model.StationService.Default | app/src/main/java/com/mmu/mytracker/data/model/StationService.kt:10-23 | a default service has empty texts and timetable fields "0", and both minute fields read as 0 |
| Model.StationService.SetFrequencyMin | app/src/main/java/com/mmu/mytracker/data/model/StationService.kt:30-38 | setting the headway stores its text, and reading it afterwards gives the value set |
| Model.StationService.SetOffsetMin | app/src/main/java/com/mmu/mytracker/data/model/StationService.kt:42-50 | setting the offset stores its text, and reading it afterwards gives the value set |
| TimeUtils.ParseFormatHHmm | app/src/main/java/com/mmu/mytracker/utils/TimeUtils.kt:26-27 | every time of day written as "HH:mm" parses back to that time |
| TimeUtils.PlusMinutesAdd | app/src/main/java/com/mmu/mytracker/utils/TimeUtils.kt:47 | adding a minutes and then b minutes to a time of day is adding a + b minutes, wrapping at midnight |
| TimeUtils.ParseHHmm | app/src/main/java/com/mmu/mytracker/utils/TimeUtils.kt:26-27 | `LocalTime.parse` with "HH:mm": two digits, a colon and two digits, hours below 24 and minutes below 60; anything else is no time |
| TimeUtils.CandidateFormula | app/src/main/java/com/mmu/mytracker/utils/TimeUtils.kt:30-47 | the k-th departure examined is (first + offset + k·freq) mod 1440 |
| TimeUtils.CandidateNext | app/src/main/java/com/mmu/mytracker/utils/TimeUtils.kt:46-47 | each departure examined is the previous one plus one headway |
| TimeUtils.MinutesBetweenValue | app/src/main/java/com/mmu/mytracker/utils/TimeUtils.kt:38-40 | the minutes until a departure not before now lie in [0, 1439] and equal the departure minute less the current minute, a started minute counting as gone |
| TimeUtils.UpcomingPrefix | app/src/main/java/com/mmu/mytracker/utils/TimeUtils.kt:36-48 | examining more slots only appends departures, so stopping after three keeps a prefix of the full list |
| TimeUtils.UpcomingBounds | app/src/main/java/com/mmu/mytracker/utils/TimeUtils.kt:36-44 | among n slots at most n values are kept, each in [0, 1439] |
| TimeUtils.UpcomingFromKeptSlots | app/src/main/java/com/mmu/mytracker/utils/TimeUtils.kt:36-44 | the kept values are the minutes to the departures of exactly the slots not before now, every such slot once, in slot order |
| TimeUtils.NextThreeTrains | app/src/main/java/com/mmu/mytracker/utils/TimeUtils.kt:17-56 | no departure for a missing or empty first time, a headway of at most 0, or a first time that is not "HH:mm"; otherwise the minutes to the first three of the 100 slots from first time plus offset, a headway apart, that are not before now |
| TimeUtils.NextThreeTrainsShape | app/src/main/java/com/mmu/mytracker/utils/TimeUtils.kt:17-56 | at most three values, each in [0, 1439]; none for a missing or empty first time, a headway of at most 0, or a first time that is not "HH:mm" |
| TimeUtils.GetNextThreeTrains | app/src/main/java/com/mmu/mytracker/utils/TimeUtils.kt:17-56 | the loop over 100 slots that stops at three departures returns the specified list |
| TimeUtils.GetMinutesUntilNextTrain | app/src/main/java/com/mmu/mytracker/utils/TimeUtils.kt:11-14 | the first of the next three departures, or -1 exactly when there is none; always in [-1, 1439] |
| TimeUtils.NextTrainMinutes | app/src/main/java/com/mmu/mytracker/utils/TimeUtils.kt:11-14 | the first of the next three departures, or -1 when there is none |
| TimeUtils.NextThreeTrainsNotSoonestFirst | app/src/main/java/com/mmu/mytracker/utils/TimeUtils.kt:30-48 | for a 22:00 first train, hourly, at 00:30 the list is 1290, 1350, 30 and the "next" train is reported in 1290 minutes |
| TimeUtils.FormatTimeDisplay | app/src/main/java/com/mmu/mytracker/utils/TimeUtils.kt:59-66 | "--" below 0, "Now" at 0, the hours, "h ", the minutes and "m" from 60 on, and the minutes and " min" otherwise |
| TimeUtils.FormatTimeDisplayNoDeparture | app/src/main/java/com/mmu/mytracker/utils/TimeUtils.kt:59-66 | the text is "--" exactly for a negative value |
| TimeUtils.FormatTimeDisplayStartsWithDigit | app/src/main/java/com/mmu/mytracker/utils/TimeUtils.kt:63-64 | a positive waiting time is shown starting with a digit |
| TimeUtils.FormatTimeDisplaySuffix | app/src/main/java/com/mmu/mytracker/utils/TimeUtils.kt:63-64 | under an hour the text ends in " min"; from an hour on it ends in a digit followed by "m"; so the last character tells the two forms apart |
| TimeUtils.FormatHoursShape | app/src/main/java/com/mmu/mytracker/utils/TimeUtils.kt:63 | from an hour on the text is the hours, "h ", the remaining minutes and "m" |
| TimeUtils.FormatHoursInjective | app/src/main/java/com/mmu/mytracker/utils/TimeUtils.kt:63 | two waiting times of an hour or more with the same text are equal |
| TimeUtils.FormatMinutesInjective | app/src/main/java/com/mmu/mytracker/utils/TimeUtils.kt:64 | two waiting times under an hour with the same text are equal |
| TimeUtils.FormatTimeDisplayInjective | app/src/main/java/com/mmu/mytracker/utils/TimeUtils.kt:59-66 | different non-negative waiting times are shown as different texts |
| Polyline.Value | app/src/main/java/com/mmu/mytracker/ui/view/activity/MainActivity.kt:326 | the two's-complement value of a 32-bit pattern, which `lat.toDouble()` converts: it lies in the `Int` range and has that pattern |
| Polyline.Chunk | app/src/main/java/com/mmu/mytracker/ui/view/activity/MainActivity.kt:308-312 | a chunk read from a position ends after it and within the text, or fails when the text ends before a character below 0x20; `ChunkEndsAt` and `ChunkValue` say where it ends and what it holds |
| Polyline.ChunkStops | app/src/main/java/com/mmu/mytracker/ui/view/activity/MainActivity.kt:308-312 | from any shift and bits, a chunk fails exactly when every character left has the flag 0x20, and otherwise ends right after the first character without it |
| Polyline.ChunkEndsAt | app/src/main/java/com/mmu/mytracker/ui/view/activity/MainActivity.kt:308-312 | a chunk read from i ends at j exactly when character j-1 is the first from i without the flag 0x20 |
| Polyline.ChunkValue | app/src/main/java/com/mmu/mytracker/ui/view/activity/MainActivity.kt:308-312 | a chunk of at most seven characters holds the sum, modulo 2^32, of each character's five low bits (code minus 63) shifted left by 5 per earlier character |
| Polyline.ZigZag | app/src/main/java/com/mmu/mytracker/ui/view/activity/MainActivity.kt:313 | `result shr 1` with the arithmetic shift, inverted when the lowest bit is set |
| Polyline.DecodeFrom | app/src/main/java/com/mmu/mytracker/ui/view/activity/MainActivity.kt:304-328 | two chunks per point, their zig-zag values added with wrap-around to the running latitude and longitude; no result when the text ends inside a chunk or after a latitude chunk |
| Polyline.Decode | app/src/main/java/com/mmu/mytracker/ui/view/activity/MainActivity.kt:297-330 | the decoding from the start of the text with both running sums at 0 |
| Polyline.ReadChunk | app/src/main/java/com/mmu/mytracker/ui/view/activity/MainActivity.kt:305-312 | the `do … while (b >= 0x20)` loop collects five bits per character at shifts 0, 5, 10, … exactly as the chunk function specifies |
| Polyline.DecodePolyline | app/src/main/java/com/mmu/mytracker/ui/view/activity/MainActivity.kt:297-330 | the decoding loop returns the points of the recursive decoder, and fails where the source reads past the end |
| Polyline.DecodeFromIsRunningSums | app/src/main/java/com/mmu/mytracker/ui/view/activity/MainActivity.kt:304-328 | decoding succeeds exactly when the text splits into whole chunks of even number; then there is one point per pair of chunks and point k is the running sum of the first k+1 latitude and longitude deltas |
| Polyline.SumsOfChunksStep | app/src/main/java/com/mmu/mytracker/ui/view/activity/MainActivity.kt:314-327 | prepending a point summed from two chunks keeps the points the running sums of the chunks |
| Polyline.AddAssoc | app/src/main/java/com/mmu/mytracker/ui/view/activity/MainActivity.kt:314 | wrapping `Int` addition is associative, so summing deltas in order gives the running sum |
| Polyline.DecodeEmpty | app/src/main/java/com/mmu/mytracker/ui/view/activity/MainActivity.kt:304 | the empty text decodes to no points |
| Polyline.ZigZagRoundTrip | app/src/main/java/com/mmu/mytracker/ui/view/activity/MainActivity.kt:313 | the zig-zag step undoes the format's zig-zag encoding for every delta in -2^30 .. 2^30-1 |
| Polyline.ZigZagOutOfRange | app/src/main/java/com/mmu/mytracker/ui/view/activity/MainActivity.kt:313 | outside that range it does not: the encoding of 2^30 decodes to -2^30 |
| Polyline.Wrap | app/src/main/java/com/mmu/mytracker/ui/view/activity/MainActivity.kt:313-314 | the 32-bit pattern of a signed value, whose two's-complement value is that value whenever it fits an `Int` |
| Polyline.ZigZagSigned | app/src/main/java/com/mmu/mytracker/ui/view/activity/MainActivity.kt:313 | every signed delta in -2^30 .. 2^30-1, zig-zag encoded as a 32-bit pattern, decodes to that delta |
| Polyline.AddIsSignedSum | app/src/main/java/com/mmu/mytracker/ui/view/activity/MainActivity.kt:314 | the wrapping `+=` adds the signed values exactly whenever their sum fits an `Int` |
| RouteTracking.UpdateStartsFetch | app/src/main/java/com/mmu/mytracker/ui/view/activity/MainActivity.kt:245-252 | an update starts a request exactly when a route is stored, the map is ready and the flag is clear, and it then sets the flag |
| RouteTracking.NoSecondFetch | app/src/main/java/com/mmu/mytracker/ui/view/activity/MainActivity.kt:245-252 | after an update that starts a request, no later update starts another before the request ends |
| RouteTracking.FetchClearsFlagOnlyOnFailure | app/src/main/java/com/mmu/mytracker/ui/view/activity/MainActivity.kt:258-293 | the end of a request clears the flag exactly when it failed in the `catch` block (an exception, or a line that does not decode) |
| RouteTracking.FailedFetchIsRetried | app/src/main/java/com/mmu/mytracker/ui/view/activity/MainActivity.kt:290-293 | after a failed request the next update with a route and a ready map asks again |
| RouteTracking.ErrorResponseIsNotRetried | app/src/main/java/com/mmu/mytracker/ui/view/activity/MainActivity.kt:284-289 | after an HTTP error or an empty route list no update asks again |
| RouteTracking.NewStationResets | app/src/main/java/com/mmu/mytracker/ui/view/activity/MainActivity.kt:128-139 | a new destination clears the flag, the line and the marker, resets the ETA to "-- min" and is remembered |
| RouteTracking.SameStationKeeps | app/src/main/java/com/mmu/mytracker/ui/view/activity/MainActivity.kt:128-140 | the same destination keeps the flag, the line and the remembered name |
| RouteTracking.StopThenTrackAgain | app/src/main/java/com/mmu/mytracker/ui/view/activity/MainActivity.kt:148-160 | stopping clears the flag and the remembered name, so a route saved again is fetched again |
| RouteTracking.AfterCheck | app/src/main/java/com/mmu/mytracker/ui/view/activity/MainActivity.kt:122-146 | without a stored route the card hides, updates stop and the remembered name is cleared; with one, a new destination clears the flag, line and marker and sets "-- min", and the card shows the name with updates on when permitted |
| RouteTracking.AfterStop | app/src/main/java/com/mmu/mytracker/ui/view/activity/MainActivity.kt:148-160 | the card hides, updates stop, marker and line are removed, the flag and the remembered name are cleared |
| RouteTracking.StartsFetch | app/src/main/java/com/mmu/mytracker/ui/view/activity/MainActivity.kt:233-247 | an update asks for a route when a route is stored, the map is ready and the flag is clear |
| RouteTracking.AfterUpdate | app/src/main/java/com/mmu/mytracker/ui/view/activity/MainActivity.kt:220-249 | with a stored route and a ready map the marker is shown and the flag set; otherwise nothing changes |
| RouteTracking.AfterFetch | app/src/main/java/com/mmu/mytracker/ui/view/activity/MainActivity.kt:258-294 | an exception or a line that does not decode clears the flag; an HTTP error or no route changes nothing; a decoded line is drawn and the ETA becomes the first leg's duration when there is one |
| RouteTracking.RouteTracker.constructor | app/src/main/java/com/mmu/mytracker/ui/view/activity/MainActivity.kt:48-53 | a new screen has the flag clear and no destination, card, marker or line |
| RouteTracking.RouteTracker.CheckActiveTracking | app/src/main/java/com/mmu/mytracker/ui/view/activity/MainActivity.kt:122-146 | the screen state after `checkActiveTracking` is the specified transition for the stored route |
| RouteTracking.RouteTracker.StopTracking | app/src/main/java/com/mmu/mytracker/ui/view/activity/MainActivity.kt:148-162 | the stored route is gone and the screen state is the specified stop transition |
| RouteTracking.RouteTracker.UpdateTrackingLogic | app/src/main/java/com/mmu/mytracker/ui/view/activity/MainActivity.kt:220-249 | a request is launched exactly when one should start, and the state is the specified update transition |
| RouteTracking.RouteTracker.FetchAndDrawRoute | app/src/main/java/com/mmu/mytracker/ui/view/activity/MainActivity.kt:251-252 | the flag is set before the request is launched |
| RouteTracking.RouteTracker.CompleteFetch | app/src/main/java/com/mmu/mytracker/ui/view/activity/MainActivity.kt:258-294 | the state after the request ends is the specified transition for its outcome, decoding the line with the loop decoder |
| SearchHistory.WithoutName | app/src/main/java/com/mmu/mytracker/utils/SearchHistoryManager.kt:15 | `removeAll` keeps exactly the entries with another name |
| SearchHistory.Saved | app/src/main/java/com/mmu/mytracker/utils/SearchHistoryManager.kt:12-21 | the place first, then the old entries with other names in their order, the last one dropped when there are more than ten |
| SearchHistory.SavedHead | app/src/main/java/com/mmu/mytracker/utils/SearchHistoryManager.kt:16 | after a save the place is the first entry |
| SearchHistory.SavedNoNamesake | app/src/main/java/com/mmu/mytracker/utils/SearchHistoryManager.kt:15-16 | after a save no other entry has the place's name |
| SearchHistory.SavedRest | app/src/main/java/com/mmu/mytracker/utils/SearchHistoryManager.kt:13-21 | the other entries are those with another name in their order, at most the last dropped, and a history of at most ten stays at most ten |
| SearchHistory.WithoutNameIsSubsequence | app/src/main/java/com/mmu/mytracker/utils/SearchHistoryManager.kt:15 | removing a name keeps the remaining entries in their order |
| SearchHistory.SubsequenceOfTail | app/src/main/java/com/mmu/mytracker/utils/SearchHistoryManager.kt:13-16 | an ordered selection from a list's tail is one from the list |
| SearchHistory.SubsequenceDropHead | app/src/main/java/com/mmu/mytracker/utils/SearchHistoryManager.kt:13-16 | dropping the first of an ordered selection leaves an ordered selection |
| SearchHistory.SubsequenceOfPrefix | app/src/main/java/com/mmu/mytracker/utils/SearchHistoryManager.kt:19-21 | a prefix of an ordered selection is an ordered selection |
| SearchHistory.SavedKeepsOrder | app/src/main/java/com/mmu/mytracker/utils/SearchHistoryManager.kt:13-21 | after a save the entries other than the place keep their relative order |
| SearchHistory.WithoutNameDistinct | app/src/main/java/com/mmu/mytracker/utils/SearchHistoryManager.kt:15 | removing a name keeps the names distinct |
| SearchHistory.SavedWellFormed | app/src/main/java/com/mmu/mytracker/utils/SearchHistoryManager.kt:12-24 | a history of at most ten distinct names stays so after a save |
| SearchHistory.WithoutAbsentName | app/src/main/java/com/mmu/mytracker/utils/SearchHistoryManager.kt:15 | removing a name nobody has changes nothing |
| SearchHistory.SavedTwice | app/src/main/java/com/mmu/mytracker/utils/SearchHistoryManager.kt:15-21 | saving the same place twice gives the history of saving it once, for a stored history of at most ten |
| SearchHistory.SearchHistoryManager.constructor | app/src/main/java/com/mmu/mytracker/utils/SearchHistoryManager.kt:8-9 | a new store holds nothing and its history is empty |
| SearchHistory.SearchHistoryManager.SavePlace | app/src/main/java/com/mmu/mytracker/utils/SearchHistoryManager.kt:12-24 | the stored list becomes the specified save of the old history, starting with the place |
| SearchHistory.SearchHistoryManager.ClearHistory | app/src/main/java/com/mmu/mytracker/utils/SearchHistoryManager.kt:32-34 | nothing is stored and the history is empty |
| ActiveRoute.RouteIn | app/src/main/java/com/mmu/mytracker/utils/ActiveRouteManager.kt:26-39 | there is no route exactly when no destination name is stored |
| ActiveRoute.SavedRoute | app/src/main/java/com/mmu/mytracker/utils/ActiveRouteManager.kt:14-23 | the store with the name, service and both coordinate texts written under their four keys |
| ActiveRoute.RouteInSavedRoute | app/src/main/java/com/mmu/mytracker/utils/ActiveRouteManager.kt:14-38 | reading after a save gives back the four values saved, whatever was stored before |
| ActiveRoute.RouteInDefaults | app/src/main/java/com/mmu/mytracker/utils/ActiveRouteManager.kt:29-31 | with only a name stored, the service reads as "" and both coordinates as "0.0" |
| ActiveRoute.RouteStore.constructor | app/src/main/java/com/mmu/mytracker/utils/ActiveRouteManager.kt:7 | a new store holds nothing, so there is no route |
| ActiveRoute.RouteStore.SaveRoute | app/src/main/java/com/mmu/mytracker/utils/ActiveRouteManager.kt:14-23 | the four keys are overwritten, nothing else changes, and the route reads back as saved |
| ActiveRoute.RouteStore.ClearRoute | app/src/main/java/com/mmu/mytracker/utils/ActiveRouteManager.kt:42-45 | every entry is removed, so there is no route |
| Ranking.Take | app/src/main/java/com/mmu/mytracker/ui/view/fragment/NearbyFragment.kt:177 | `take(n)` is the prefix of length n, or the whole list when it is shorter |
| Ranking.InsertSorted | app/src/main/java/com/mmu/mytracker/ui/view/activity/SearchActivity.kt:169 | inserting into a list sorted by distance keeps it sorted |
| Ranking.InsertMultiset | app/src/main/java/com/mmu/mytracker/ui/view/activity/SearchActivity.kt:169 | inserting adds exactly the one entry |
| Ranking.SortSorted | app/src/main/java/com/mmu/mytracker/ui/view/activity/SearchActivity.kt:169 | `sortBy` on the distance gives ascending distances |
| Ranking.SortMultiset | app/src/main/java/com/mmu/mytracker/ui/view/activity/SearchActivity.kt:169 | the sort keeps every entry, as often as it occurs |
| Ranking.InsertAtDistance | app/src/main/java/com/mmu/mytracker/ui/view/activity/SearchActivity.kt:169 | inserting puts the entry first among those at its distance |
| Ranking.SortStable | app/src/main/java/com/mmu/mytracker/ui/view/activity/SearchActivity.kt:169 | the sort is stable: the entries at any one distance keep their order |
| Ranking.NearestFirst | app/src/main/java/com/mmu/mytracker/ui/view/fragment/NearbyFragment.kt:176-177 | the first k sorted entries are sorted, come from the input, and are no farther than any entry left out |
| PlaceSearch.Candidates | app/src/main/java/com/mmu/mytracker/ui/view/activity/SearchActivity.kt:154-167 | there are no more candidates than stations |
| PlaceSearch.CandidatesExactly | app/src/main/java/com/mmu/mytracker/ui/view/activity/SearchActivity.kt:155-167 | an entry is a candidate exactly when it is a station of the list, at its distance, and that distance is at most 350 m |
| PlaceSearch.DispatchOn | app/src/main/java/com/mmu/mytracker/ui/view/activity/SearchActivity.kt:171-185 | no candidate reports that none was found, one opens that station, and several open the chooser over all of them |
| PlaceSearch.DispatchCases | app/src/main/java/com/mmu/mytracker/ui/view/activity/SearchActivity.kt:169-176 | no candidate reports none, exactly one opens that station, and two or more open a chooser with all candidates nearest first |
| PlaceSearch.HandleSelectedPlace | app/src/main/java/com/mmu/mytracker/ui/view/activity/SearchActivity.kt:137-185 | the loop, sort and branch give the specified dispatch, and the place is saved to the history exactly when some station was found |
| PlaceSearch.OfferedStationRoute | app/src/main/java/com/mmu/mytracker/ui/view/activity/SearchActivity.kt:226-243 | a station opened directly or picked from the chooser is one of the stations within 350 m of the place; `openStationOptions` offers its own services, and picking one sends the route screen that station's name and position and the picked service's name |
| NearbyStations.FirstOfType | app/src/main/java/com/mmu/mytracker/ui/view/fragment/NearbyFragment.kt:157 | the first service whose type equals the selected type ignoring case, or none exactly when no service matches |
| NearbyStations.HasServiceOfType | app/src/main/java/com/mmu/mytracker/ui/view/fragment/NearbyFragment.kt:148 | some service of the station has the selected type, ignoring case |
| NearbyStations.InfoFor | app/src/main/java/com/mmu/mytracker/ui/view/fragment/NearbyFragment.kt:157-172 | the next departure of the station's first service of the type, shown with `formatTimeDisplay`, or "Service available" when there is none |
| NearbyStations.Serving | app/src/main/java/com/mmu/mytracker/ui/view/fragment/NearbyFragment.kt:147-149 | the listed stations are exactly the stations having a service of the selected type |
| NearbyStations.RankedStations | app/src/main/java/com/mmu/mytracker/ui/view/fragment/NearbyFragment.kt:150-155 | each served station is paired with its distance, in list order |
| NearbyStations.WithInfo | app/src/main/java/com/mmu/mytracker/ui/view/fragment/NearbyFragment.kt:157-179 | each kept station gets the info text of its own services, in list order |
| NearbyStations.NearestStations | app/src/main/java/com/mmu/mytracker/ui/view/fragment/NearbyFragment.kt:147-177 | the served stations with their distances, stably sorted by distance and cut to four |
| NearbyStations.NearbyList | app/src/main/java/com/mmu/mytracker/ui/view/fragment/NearbyFragment.kt:147-179 | the four nearest served stations, each with its info text |
| NearbyStations.RankedStationsFacts | app/src/main/java/com/mmu/mytracker/ui/view/fragment/NearbyFragment.kt:147-155 | every ranked entry is a served station of the full list at its distance |
| NearbyStations.NearestStationsShape | app/src/main/java/com/mmu/mytracker/ui/view/fragment/NearbyFragment.kt:147-177 | the list has at most four served stations, each at its distance, in ascending distance |
| NearbyStations.NearestStationsNearest | app/src/main/java/com/mmu/mytracker/ui/view/fragment/NearbyFragment.kt:176-177 | no served station left out is nearer than one listed |
| NearbyStations.NearestStationsComplete | app/src/main/java/com/mmu/mytracker/ui/view/fragment/NearbyFragment.kt:176-177 | with at most four served stations, all of them are listed |
| NearbyStations.NearbyListInfo | app/src/main/java/com/mmu/mytracker/ui/view/fragment/NearbyFragment.kt:157-172 | each listed station's text is the next departure of its first service of the type, via `getMinutesUntilNextTrain` and `formatTimeDisplay` |
| NearbyStations.ClickedServiceName | app/src/main/java/com/mmu/mytracker/ui/view/fragment/NearbyFragment.kt:104-105 | a click names the first service of the selected type, or "<type> Service" when there is none |
| NearbyStations.NearbyScreen.constructor | app/src/main/java/com/mmu/mytracker/ui/view/fragment/NearbyFragment.kt:42-44 | the selected type starts as "MRT" and nothing is cached |
| NearbyStations.NearbyScreen.OnButtonChecked | app/src/main/java/com/mmu/mytracker/ui/view/fragment/NearbyFragment.kt:70-75 | a checked button selects "MRT" for the MRT button and "BUS" for any other; an unchecked one changes nothing |
| NearbyStations.CacheAfter | app/src/main/java/com/mmu/mytracker/ui/view/fragment/NearbyFragment.kt:137-145 | a cached list is kept whatever is fetched; with nothing cached the fetched list is stored, and there is a list afterwards exactly when one was cached or fetched |
| NearbyStations.FailedLoadIsKept | app/src/main/java/com/mmu/mytracker/data/remote/repository/StationRepository.kt:14-26 | a query that fails reaches the screen as the empty list, which is cached: every later refresh keeps it and shows no station |
| NearbyStations.NearbyScreen.CalculateNearbyStations | app/src/main/java/com/mmu/mytracker/ui/view/fragment/NearbyFragment.kt:134-181 | the stations are fetched only while nothing is cached and are then kept, a failed query as the empty list; the list shown is the specified nearby list, and nothing changes only when the load never completes |
| ReportForm.CrowdLevel | app/src/main/java/com/mmu/mytracker/ui/view/fragment/ReportBottomSheetFragment.kt:164-169 | the crowd level is "Low", "Medium" or "High"; "Low" and "High" only for their buttons, "Medium" otherwise |
| ReportForm.DelayOrZero | app/src/main/java/com/mmu/mytracker/ui/view/fragment/ReportBottomSheetFragment.kt:171 | the delay is never empty: the entered text, or "0" for an empty field |
| ReportForm.Submission | app/src/main/java/com/mmu/mytracker/ui/view/fragment/ReportBottomSheetFragment.kt:155-172 | nothing is sent exactly when the line is "Select Line" |
| ReportForm.SubmissionFields | app/src/main/java/com/mmu/mytracker/ui/view/fragment/ReportFragment.kt:96-113 | a sent report carries the line and comment, one of the three crowd levels, a non-empty delay, and the selected station or "General" |
| ReportSheet.LineKeyword | app/src/main/java/com/mmu/mytracker/ui/view/fragment/ReportBottomSheetFragment.kt:93-98 | the three lines map to "Kajang", "Putrajaya" and "T460", and every other text to "" |
| ReportSheet.MatchingNames | app/src/main/java/com/mmu/mytracker/ui/view/fragment/ReportBottomSheetFragment.kt:103-109 | there are no more names than stations |
| ReportSheet.MatchingNamesExactly | app/src/main/java/com/mmu/mytracker/ui/view/fragment/ReportBottomSheetFragment.kt:103-109 | a name is kept exactly when a station of that name has a service whose name or type contains the keyword, ignoring case |
| ReportSheet.StationOptionsFor | app/src/main/java/com/mmu/mytracker/ui/view/fragment/ReportBottomSheetFragment.kt:89-117 | no update when nothing is cached or the line has no keyword; otherwise "General (Whole Line)" then the kept names sorted, duplicates kept |
| ReportSheet.StationOptionsListLine | app/src/main/java/com/mmu/mytracker/ui/view/fragment/ReportBottomSheetFragment.kt:103-113 | after the first entry, a name is listed exactly when a cached station of that name serves the line |
| ReportSheet.ReportBottomSheet.constructor | app/src/main/java/com/mmu/mytracker/ui/view/fragment/ReportBottomSheetFragment.kt:33 | a new sheet has an empty cache |
| ReportSheet.ReportBottomSheet.OnLineSelected | app/src/main/java/com/mmu/mytracker/ui/view/fragment/ReportBottomSheetFragment.kt:72-82 | "Select Line" resets the stations to "Select Line First"; any other line filters them |
| ReportSheet.ReportBottomSheet.FilterStationsByLine | app/src/main/java/com/mmu/mytracker/ui/view/fragment/ReportBottomSheetFragment.kt:89-117 | the spinner gets the specified list, or keeps its content when there is no update |
| ReportSheet.ReportBottomSheet.ResetStationSpinner | app/src/main/java/com/mmu/mytracker/ui/view/fragment/ReportBottomSheetFragment.kt:119-122 | the spinner holds "Select Line First" alone |
| ReportSheet.ReportBottomSheet.FetchAllStations | app/src/main/java/com/mmu/mytracker/ui/view/fragment/ReportBottomSheetFragment.kt:133-153 | the stations delivered replace the cache, the empty list for a failed query, and the spinner is refiltered for a chosen line; a load that never completes changes nothing |
| ReportSheet.ReportBottomSheet.SubmitReport | app/src/main/java/com/mmu/mytracker/ui/view/fragment/ReportBottomSheetFragment.kt:155-172 | the report sent is the specified submission, none exactly for "Select Line" |
| ReportScreen.Names | app/src/main/java/com/mmu/mytracker/ui/view/fragment/ReportFragment.kt:84-86 | the station names in cache order, one per station |
| ReportScreen.StationOptions | app/src/main/java/com/mmu/mytracker/ui/view/fragment/ReportFragment.kt:83-89 | "Select Station" followed by every cached station's name in cache order |
| ReportScreen.PlaceholderIsReported | app/src/main/java/com/mmu/mytracker/ui/view/fragment/ReportFragment.kt:98 | a station spinner left on its first entry sends "Select Station" as the station, not "General" |
| ReportScreen.ReportFragment.constructor | app/src/main/java/com/mmu/mytracker/ui/view/fragment/ReportFragment.kt:30 | a new screen has an empty cache and empty fields |
| ReportScreen.ReportFragment.LoadStations | app/src/main/java/com/mmu/mytracker/ui/view/fragment/ReportFragment.kt:71-80 | the stations delivered replace the cache, the empty list for a failed query; a load that never completes keeps it |
| ReportScreen.ReportFragment.OnLineSelected | app/src/main/java/com/mmu/mytracker/ui/view/fragment/ReportFragment.kt:62-67 | "Select Line" leaves the stations unchanged; any other line lists all cached stations |
| ReportScreen.ReportFragment.FilterStationsByLine | app/src/main/java/com/mmu/mytracker/ui/view/fragment/ReportFragment.kt:83-94 | the spinner lists "Select Station" and every cached station, whatever the line |
| ReportScreen.ReportFragment.SubmitReport | app/src/main/java/com/mmu/mytracker/ui/view/fragment/ReportFragment.kt:96-125 | the report sent is the specified submission from the current fields; the comment and delay fields are cleared exactly when a report was sent and stored |
| Alerts.TruncDiv | app/src/main/java/com/mmu/mytracker/ui/adapter/AlertAdapter.kt:42 | `Long` division rounds toward zero: the quotient brackets the dividend from below when non-negative and from above when negative |
| Alerts.DisplayStation | app/src/main/java/com/mmu/mytracker/ui/adapter/AlertAdapter.kt:38 | "Whole Line" for any station text containing "General", the station itself otherwise |
| Alerts.Title | app/src/main/java/com/mmu/mytracker/ui/adapter/AlertAdapter.kt:38-39 | the warning sign, the crowd level and the station shown, in parentheses |
| Alerts.TimeAgo | app/src/main/java/com/mmu/mytracker/ui/adapter/AlertAdapter.kt:41-43 | the age in whole minutes, truncated toward zero: "Now" below one, otherwise the minutes and "m ago" |
| Alerts.Message | app/src/main/java/com/mmu/mytracker/ui/adapter/AlertAdapter.kt:45-55 | the comment alone for a delay of "0", otherwise the comment and the delay sentence |
| Alerts.TimeAgoNow | app/src/main/java/com/mmu/mytracker/ui/adapter/AlertAdapter.kt:41-43 | the age reads "Now" exactly when the report is less than a minute old or from the future |
| Alerts.TimeAgoMinutes | app/src/main/java/com/mmu/mytracker/ui/adapter/AlertAdapter.kt:41-43 | otherwise it reads the number of whole minutes elapsed, followed by "m ago" |
| Alerts.MessageReadBack | app/src/main/java/com/mmu/mytracker/ui/adapter/AlertAdapter.kt:45-55 | the message starts with the comment; it is the comment alone exactly when the delay is "0", and otherwise the delay can be read back between the sentence's fixed texts |
| Alerts.CardFor | app/src/main/java/com/mmu/mytracker/ui/adapter/AlertAdapter.kt:29-56 | the card uses "Alert", "General", "", "0" and now for missing fields, so a record without a timestamp reads "Now" |
| Alerts.BareRecordCard | app/src/main/java/com/mmu/mytracker/ui/adapter/AlertAdapter.kt:32-39 | a record without station, comment or delay shows the whole line and an empty message |
| Alerts.WholeLineShown | app/src/main/java/com/mmu/mytracker/ui/adapter/AlertAdapter.kt:38 | both "General" and "General (Whole Line)" are shown as "Whole Line" |
| Alerts.WholeLineReportCard | app/src/main/java/com/mmu/mytracker/ui/adapter/AlertAdapter.kt:32-55 | a whole-line report sent without a delay is shown with its crowd level, "(Whole Line)" and its comment alone |
| Alerts.AlertAdapter.constructor | app/src/main/java/com/mmu/mytracker/ui/adapter/AlertAdapter.kt:14 | the adapter holds the given records |
| Alerts.AlertAdapter.UpdateList | app/src/main/java/com/mmu/mytracker/ui/adapter/AlertAdapter.kt:60-63 | the new records replace the old, and the count is their number |

## Left out

- Cloud database, directions API, preferences and JSON are left out. This covers station loading, report submission, the directions request, `SharedPreferences` and Gson. Their results are parameters: an `Option` for a call whose result may never arrive, and a `FetchOutcome` for the directions request. The station repository catches its own errors and returns the empty list (`StationRepository.kt:14-26`), so a failed station query is delivered as `Some([])`; `None` stands only for a load that throws past it, such as a cancelled coroutine.
- Location, maps and permissions are left out: distances, markers, camera moves, permission prompts and Places autocomplete. Distances are an input function giving whole metres, so a fractional `Float` distance near 350 m is not captured.
- Floating point is left out: the division of decoded points by 1E5, the "%.2f km" distance texts, and the number-to-text round trip of the tracked route's coordinates (the model keeps the coordinate text as stored).
- Coroutines and timers are left out: the 30-second refresh loop, and the interleaving of a request with other events (a request's end is a separate step).
- Character handling is ASCII-only. Case-insensitive comparison folds only A-Z, and only ASCII digits are parsed. Characters outside the Basic Multilingual Plane are single characters.
- Polyline.ChunkValue: states the value only for chunks of at most seven characters. An eighth character shifts by 35, which Kotlin takes modulo 32, so its bits fall onto earlier groups; the function `Chunk` models that, but no lemma states the value.
- Polyline.ZigZagRoundTrip: holds only for deltas in -2^30 .. 2^30-1, as Kotlin's arithmetic `shr` gives; `ZigZagOutOfRange` shows the value where it fails.
- The polyline encoder and a decode-after-encode round trip are not part of this model; only the decoder exists in the app.
- The fallbacks "Unknown Station" and "Station" for a route without a name are not modelled: a stored route always has its name.
- The `isAdded` guard of the bottom sheet's spinner update is not modelled: the sheet is assumed attached.
- NearbyStations.WithInfo: the distance text before the next-departure text is not modelled, and the info is a value rather than the joined display text.
- Alerts.CardFor: the clock is read once, so a record without a timestamp is exactly 0 ms old; the bold style on the delay sentence and `Long` overflow of the time difference are not modelled.
- ReportSheet.ReportBottomSheet.SubmitReport: closing the sheet after a successful submission is not modelled.
- The sheet's first spinner contents before any line is chosen, and the screens' layout texts, are not modelled.
- `showStationChooserDialog`, the adapters without logic and the feedback screens are not part of this model.
