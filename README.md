# Karting sessions viewer — a Dafny model

A model, in Dafny, of the logic at the core of a static web viewer for rental-kart sessions. The viewer has these parts:

- **The session page** (`js/session.js`) plays a session video on YouTube, optionally beside a second session's video. It lists the laps with their times and deltas and draws a lap chart. It tracks the current lap as the video plays and accepts commands from a phone remote.
- **The session list page** (`js/index.js`) shows every session from the sessions list file. It marks personal and track bests, computes trends, and sorts, filters and pages the list.
- **The session editor** (`js/manage.js`) edits a session's laps: a bulk import of pasted lap times, adding, removing and editing laps, and the fastest lap written on save.
- **The phone remote** (`js/remote.js`) has buttons and a seek bar that send commands to the session page. It shows the statistics the page sends back.
- **Two Python index generators** (`generate_list.py` and `sessions/generate_list.py`) read the session files and write the sessions list with per-session metrics.

Lap times travel as text such as "1:23.456". Most of the model is about reading and writing them exactly as each script does:

- JavaScript's `parseFloat`, `parseInt` and `toFixed(3)`;
- Python's `float()`, `timedelta` and `"%02d:%06.3f"`.

Numbers are exact reals. JavaScript's special values (NaN and the infinities) are kept as a `JsNum` datatype, so `|| 0`, `|| Infinity` and comparisons with NaN behave as they do in the browser. JSON field values are a `Json` datatype with JavaScript's and Python's truthiness.

## Code shape

- **Pure code** — the time helpers, the chart arithmetic, bests, trends, the sort order and the filters — is datatypes, functions and lemmas.
- **Handlers that change page state** are methods of classes that update their fields in place:
  - `SessionPage.Page`;
  - `ListPage.SessionIndex`;
  - `LapEditor.Editor`;
  - `Remote.RemotePage`.

  Each method is specified by a function from the old state to the new one, and the properties are lemmas about those functions.
- **Loops in the source** are methods with loop invariants proved against the function that specifies them: the lap scan in the editor's save, the bulk-import line loop, the renumbering loop, and the lap loops of both index generators.

## Modules

| file | module | what it models |
|---|---|---|
| text.dfy | Optional, Text | strings: padding, trimming, splitting, decimal digits |
| js_values.dfy | JsValues | JSON values, IEEE special values, truthiness, comparisons |
| numerals.dfy | Numerals | parseFloat, parseInt, float(), toFixed(3), "%.3f" |
| real_arith.dfy | RealArith | facts of real arithmetic the chart and the remote rest on |
| session_time.dfy | SessionTime | the session page's parseTime and formatTime |
| index_time.dfy | IndexTime | the list page's parseTime and formatTime |
| timeline.dfy | Timeline | the lap start table and the lap under a video time |
| laps.dfy | Laps | lap validation, the fastest lap, deltas, the compare list |
| chart.dfy | Chart | the lap chart's geometry, playhead and click targets |
| session_page.dfy | SessionPage | the session page state and its handlers |
| session_list.dfy | SessionList | bests, trends, the sort order and the filters |
| sorting.dfy | Sorting | the stable sort the list page uses |
| list_page.dfy | ListPage | the list page state, paging and the URL state |
| lap_editor.dfy | LapEditor | the session editor's lap list |
| remote.dfy | Remote | the phone remote |
| index_script.dfy | IndexScript | generate_list.py |
| sessions_script.dfy | SessionsScript | sessions/generate_list.py |

## Model

| member | source | states |
|---|---|---|
| Numerals.JsParseFloat | js/session.js:83-86 | parseFloat of a string never yields an infinity: a numeral or NaN |
| Numerals.JsParseInt | js/session.js:73-83 | parseInt of a string never yields an infinity: an integer or NaN |
| Numerals.JsParseIntDigits | js/session.js:73-78 | parseInt of a run of digits is the number they spell |
| Numerals.RoundHalfUp | js/session.js:116 | the nearest integer, halves rounded up, as toFixed rounds a non-negative number |
| Numerals.RoundHalfEven | generate_list.py:56-62 | the nearest integer, halves to the even one, as Python's timedelta and "%.3f" round |
| Numerals.Fixed3 | js/session.js:116 | a whole number of thousandths is written with a decimal point before exactly three final digits, beginning and ending with a digit |
| Numerals.JsToFixed3 | js/session.js:116 | toFixed(3) of a finite number has a decimal point before exactly three final digits, and begins with a minus sign exactly when the number is below zero |
| Numerals.JsToFixed3Negative | js/session.js:116 | below zero toFixed(3) writes a minus sign and toFixed(3) of the magnitude, so halves round away from zero |
| Numerals.JsToFixed3Exact | js/session.js:116 | toFixed(3) of a whole number of thousandths writes exactly those thousandths |
| Numerals.PyFixed3Exact | generate_list.py:62 | "%.3f" of a whole number of thousandths writes exactly those thousandths |
| Numerals.JsToFixed3RoundTrip | js/session.js:86-116 | parseFloat reads toFixed(3) back as the value rounded to thousandths, within half a thousandth |
| Numerals.JsToFixed3RoundTripNegative | js/session.js:86-116 | parseFloat reads toFixed(3) of a negative number back as the value rounded to thousandths (halves away from zero), within half a thousandth |
| Numerals.JsParseNegativeFixed3 | js/session.js:86 | parseFloat of a minus sign, a three-decimal numeral and a tail that does not continue the digits is minus that many thousandths |
| Numerals.JsParsePaddedFixed3 | js/index.js:210 | a three-decimal numeral with leading zeros and any non-digit tail reads as its thousandths |
| SessionTime.ParseTime | js/session.js:65-87 | parseTime never yields NaN or an infinity; a number is returned unchanged; null, undefined and "" read as 0 |
| SessionTime.ShortcutsAgree | js/session.js:69-86 | the "00:0ddd" and "0:ddd" shortcuts change no result: every string reads as the general minutes:seconds rule applied to its trimmed text |
| SessionTime.DoubleZeroAgrees | js/session.js:72-84 | on "00:0" followed by digits, the general rule already gives parseInt of the digits after "00:0" ("00:034" is 34) |
| SessionTime.ZeroAgrees | js/session.js:77-84 | on "0:" followed by digits, the general rule gives parseInt of the digits after "0:" ("0:34" is 34) |
| SessionTime.ClockValueOfTwo | js/session.js:81-84 | a string of two colon-separated parts reads as (parseInt(minutes) or 0) * 60 + (parseFloat(seconds) or 0) |
| SessionTime.FalsyTimeIsZero | js/session.js:66-86 | every falsy lap time (null, false, 0, "") reads as 0 seconds |
| SessionTime.ZeroClockIsZero | js/session.js:81-84 | "0:00" reads as 0 seconds |
| SessionTime.FormatNegative | js/session.js:114-119 | a negative time is clamped to 0 and shown as "0.000s" |
| SessionTime.FormatTime | js/session.js:110-119 | "N/A" exactly for a missing value and NaN |
| SessionTime.FormatSeconds | js/session.js:114-119 | the two forms: under a minute the text ends in "s", from a minute on it does not and holds the colon after the minutes |
| SessionTime.FormatUnderMinute | js/session.js:115-119 | under a minute the text is the seconds rounded to 3 decimals followed by "s" |
| SessionTime.FormatOverMinute | js/session.js:115-119 | from a minute on the text is the whole minutes, ":", and the remaining seconds to 3 decimals zero-padded to 6 characters |
| SessionTime.WholeMinutes | js/session.js:115 | Math.floor(t / 60) is the m with 60m <= t < 60m + 60 |
| SessionTime.FormatThenParse | js/session.js:65-120 | reading back a formatted non-negative time moves it by at most half a millisecond |
| SessionTime.ReadFormatted | js/session.js:65-120 | reading back a formatted time gives its whole minutes plus its remaining seconds rounded to the millisecond |
| SessionTime.ReadMinutesSeconds | js/session.js:81-119 | "M:SS.sss" with M > 0 reads back as 60M plus the seconds field |
| SessionTime.ReadSecondsOnly | js/session.js:86-119 | "S.sssS" under a minute reads back as its seconds (parseFloat stops at the "s") |
| SessionTime.FormatThenParseExact | js/session.js:65-120 | every non-negative whole number of milliseconds survives formatting and reading back exactly |
| SessionTime.ExactRoundTrip | js/session.js:65-120 | the same round trip stated for x = ms / 1000 |
| IndexTime.IndexParseTime | js/index.js:205-213 | the list page's parseTime is never NaN or minus Infinity; null, undefined and "" are Infinity; a number is itself |
| IndexTime.ZeroWithoutColonIsInfinity | js/index.js:208-212 | without a colon, a string whose parseFloat is 0 or NaN is Infinity (`parseFloat(...) \|\| Infinity`) |
| IndexTime.BareZeroIsInfinity | js/index.js:212 | "0" reads as Infinity |
| IndexTime.NegativeRemainder | js/index.js:218 | JavaScript's `%` on a negative time lies in (-60, 0] |
| IndexTime.IndexFormatTime | js/index.js:215-220 | "-" exactly for Infinity and NaN; a finite time ends in "s" exactly when it is under a minute, negative times included |
| IndexTime.IndexFormatNegative | js/index.js:216-219 | a negative time is written from its remainder modulo 60: a minus sign, the remainder's magnitude rounded to thousandths with halves away from zero, and "s"; a remainder of 0 is "0.000s" |
| IndexTime.IndexFormatTieExample | js/index.js:218 | -30.0625 is written "-30.063s": toFixed rounds the tie away from zero |
| IndexTime.SameAsSessionPageOverMinute | js/index.js:215-220 | from a minute on the list page writes a time exactly as the session page does |
| IndexTime.IndexFormatOver | js/index.js:217-219 | from a minute on: whole minutes, ":", and the remaining seconds to 3 decimals zero-padded to 6 characters |
| IndexTime.IndexUnderMinuteShape | js/index.js:217-219 | under a minute: the seconds to 3 decimals followed by "s" |
| IndexTime.IndexRoundTrip | js/index.js:205-220 | every positive whole number of milliseconds survives formatting and reading back exactly |
| IndexTime.IndexNegativeRoundTrip | js/index.js:205-220 | every negative whole number of milliseconds above -60 seconds survives formatting and reading back exactly |
| IndexTime.IndexReadMinutesSeconds | js/index.js:208-211 | "M:SS.sss" with M > 0 reads back as 60M plus the seconds field |
| IndexTime.IndexReadSeconds | js/index.js:212 | a positive "S.sssS" reads back as its seconds |
| IndexTime.ZeroReadsBackAsInfinity | js/index.js:205-220 | 0 is written "0.000s", which reads back as Infinity: the one millisecond value that does not survive the round trip |
| Timeline.VideoStartDefault | js/session.js:2225 | the first table entry is parseTime(video_start_time \|\| "0:00"): a falsy start reads as "0:00" |
| Timeline.BuildLapStartTimes | js/session.js:2225-2237 | the table has one entry per lap (one for no laps); entry k is lap k+1 at the start time plus the first k lap durations |
| Timeline.BuiltTableWellFormed | js/session.js:2225-2237 | with positive durations the table starts at the video start, numbers its laps 1..n and strictly increases |
| Timeline.NextStart | js/session.js:2231-2236 | each later entry is the previous one plus the previous lap's duration |
| Timeline.GetCurrentLapNumber | js/session.js:747-754 | the descending scan returns the lap of the last entry at or before t, or 1 |
| Timeline.LapNumberAt | js/session.js:747-754 | the lap is 1 when no entry starts at or before t, and otherwise the number of an entry starting at or before t with no later entry doing so |
| Timeline.LapNumberAtNoneBefore | js/session.js:753 | before every entry the lap is 1 |
| Timeline.LapNumberAtLast | js/session.js:748-751 | the lap is that of the last entry whose time is at most t |
| Timeline.LapNumberAtInterval | js/session.js:747-754 | on a well-formed table the lap lies in [1, n] and t lies in that lap's interval of the table |
| Timeline.LapNumberAtStart | js/session.js:747-754 | at a lap's own start time the lap found is that lap |
| Timeline.LapNumberAtMonotone | js/session.js:747-754 | the lap found never decreases as t grows |
| Laps.KeepValid | js/session.js:98-104 | the filter keeps exactly the valid laps of the list and no more of them |
| Laps.ValidateLapData | js/session.js:92-105 | every kept lap has lap > 0 and 0 < parseTime(time) < 600; a non-array gives [] |
| Laps.KeepValidAppend | js/session.js:98-104 | the filter works lap by lap: filtering a concatenation is concatenating the filtered parts, so order is kept |
| Laps.KeepValidAllValid | js/session.js:98-104 | a list of valid laps passes the filter unchanged |
| Laps.ValidateIdempotent | js/session.js:92-105 | validating validated laps changes nothing |
| Laps.Fastest | js/session.js:311 | Math.min of a non-empty list is one of its times and at most every one |
| Laps.IndexOfTime | js/session.js:1450-1464 | indexOf gives the first position holding the value, or -1 when none does |
| Laps.FastestIndex | js/session.js:1448-1464 | indexOf(Math.min(...)) is the first position of a fastest lap |
| Laps.FirstFastestUnique | js/session.js:1453-1467 | only one position is the first fastest lap |
| Laps.MarkBestLap | js/session.js:1462-1467 | after the forEach, a lap is marked best exactly when it is the first fastest lap |
| Laps.DeltaOfStoredLaps | js/session.js:302-315 | for a lap of the validated list the delta is at least 0, and it is 0 exactly on a fastest lap |
| Laps.DeltaOutsideLaps | js/session.js:303-307 | a lap marker outside the list gives a delta of 0 |
| Laps.CurrentDelta | js/session.js:302-315 | calculateCurrentDelta as written: no contract of its own; `Laps.DeltaOfStoredLaps` and `Laps.DeltaOutsideLaps` state its properties |
| Laps.Dedupe | js/session.js:1410 | the Set keeps every id once and nothing else (the order is `Laps.DedupeFirstSeen`) |
| Laps.DedupeDistinct | js/session.js:1410 | a list without repeats passes through the Set unchanged, in order |
| Laps.DedupeFirstSeen | js/session.js:1410 | the Set lists the ids in the order of their first occurrence |
| Laps.KeepIds | js/session.js:1407 | the filter keeps exactly the non-empty ids other than the current session's (the order is `Laps.KeepIdsAppend`) |
| Laps.KeepIdsAppend | js/session.js:1407 | the filter works id by id: filtering a concatenation concatenates the filtered parts, so list order is kept |
| Laps.KeptOrder | js/session.js:1407 | of two kept ids, the one kept first also comes first in the unfiltered list |
| Laps.CompareIds | js/session.js:1402-1410 | the compare list holds each trimmed, non-empty comma-separated id other than the current session once, and nothing else, in the order in which the ids first occur in the input |
| Chart.Divisor | js/session.js:891 | `maxLapsCount - 1 \|\| 1` is never 0, and is at least 1 when there is a lap |
| Chart.TimeRange | js/session.js:885 | `maxTime - minTime \|\| 1` is never 0, and is positive when minTime <= maxTime |
| Chart.MaxLength | js/session.js:886 | the reduce gives a length at least that of every dataset, attained by one of them |
| Chart.Slowest | js/session.js:884 | Math.max of a non-empty list is one of its times and at least every one |
| Chart.AllTimesEmpty | js/session.js:871-875 | the flattened list is empty exactly when every dataset is empty |
| Chart.MakeFrame | js/session.js:862-887 | no frame exactly when no dataset has a lap; otherwise minTime <= every lap time <= maxTime and maxLapsCount >= 1 |
| Chart.PointInPlot | js/session.js:890-894 | every lap of the chart maps inside the padded plot area |
| Chart.FasterIsLower | js/session.js:892 | the fastest time sits on the bottom edge and a faster lap is never drawn above a slower one |
| Chart.Clamp01 | js/session.js:957 | Math.max(0, Math.min(1, p)) lies in [0, 1] and leaves a p already in [0, 1] unchanged |
| Chart.FindStart | js/session.js:951 | the find gives the start of an entry with that lap number, and nothing exactly when no entry has it |
| Chart.FindStartWellFormed | js/session.js:951 | on the built table, lap n's entry is entry n-1, and a lap outside 1..n has none |
| Chart.Progress | js/session.js:949-959 | the progress within a lap lies in [0, 1] |
| Chart.PlayheadInLap | js/session.js:944-961 | the playhead index lies in [lap-1, lap] for the lap found at t |
| Chart.PlayheadFraction | js/session.js:949-961 | inside a lap of positive duration the playhead index is lap-1 plus the elapsed fraction of the lap |
| Chart.ClickWithinLap | js/session.js:1244-1275 | a click on lap i of positive duration seeks into [start of lap, start + duration) |
| Chart.ClickTargetOf | js/session.js:1253-1275 | the click target is the lap's start plus its duration times the fraction of the clicked index |
| Chart.ClickInvertsX | js/session.js:1244-1254 | the click mapping inverts the drawing mapping: clicking at the x of index e gives back e |
| Chart.ClickOnPlayhead | js/session.js:944-962 | clicking where the playhead for time t is drawn seeks back to t |
| Chart.ClosestPoint | js/session.js:1294-1300 | the scan picks the point within 15 pixels that is nearest, first among equals, and nothing only when no point is within 15 pixels |
| Chart.LinePoints | js/session.js:1012-1032 | a line contributes one point per lap; point k lies at (x of lap index k, y of lap k's time) and carries the line's comparison flag and session index |
| Chart.SecondCopyNotHit | js/session.js:1100-1106 | the main line is drawn twice, and a point of its second copy is never the one the tooltip picks |
| SessionPage.Send | js/session.js:545-553 | a command reaches a player only when its API is ready, is appended to its command log, and changes nothing else |
| SessionPage.SyncCommand | js/session.js:543-555 | the other player is told to play exactly when this one plays and the other does not, to pause exactly when this one stopped and the other plays, and nothing otherwise |
| SessionPage.SyncConverges | js/session.js:543-555 | after following the command, the other player plays exactly when this one does |
| SessionPage.Sync | js/session.js:543-555 | the other player after the sync rule: no command when it is missing, otherwise the command of `SessionPage.SyncCommand` sent to it (its properties are `SessionPage.StateChangeSyncs`) |
| SessionPage.Initial | js/session.js:16-23 | a fresh page (lap marker 1, no laps, no table) satisfies the page invariant |
| SessionPage.LoadEffect | js/session.js:2110-2118 | loading keeps the invariant; no valid laps is an error that changes nothing else; otherwise the validated laps are kept and the table has one entry per lap starting at the parsed video start |
| SessionPage.Loaded | js/session.js:2110-2118 | loading keeps the page invariant and leaves the marker, the players and the playhead alone |
| SessionPage.BuiltIsStartTable | js/session.js:2225-2237 | the table the loop builds is the start table of the lap durations |
| SessionPage.ValidDurationsPositive | js/session.js:92-105 | every validated lap has a positive duration, so the table strictly increases |
| SessionPage.StateChangeSyncs | js/session.js:522-556 | the stats timer runs exactly while the reporting player plays; the other player receives exactly the sync command, and laps, table, marker and playhead are unchanged |
| SessionPage.StateChanged | js/session.js:522-556 | a state report keeps the page invariant |
| SessionPage.ToggleBoth | js/session.js:662-674 | a no-op without a ready main player; otherwise both players receive pause when main plays, play otherwise, and main ends up in the opposite playing state |
| SessionPage.Toggled | js/session.js:662-674 | the toggle keeps the page invariant |
| SessionPage.ClampLap | js/session.js:703-705 | a lap number is clamped into [1, maxLap], and one already inside is unchanged |
| SessionPage.SeekToLapEffect | js/session.js:699-742 | keeps the invariant; without laps nothing changes; otherwise the marker is the clamped lap, both players are sought to that lap's start, and the lap found at that time is the marker |
| SessionPage.SoughtToLap | js/session.js:699-742 | seeking to a lap keeps the page invariant |
| SessionPage.NextLapEffect | js/session.js:679-685 | at or after the last lap nothing changes; otherwise it seeks to the next lap |
| SessionPage.NextLapOf | js/session.js:679-685 | moving to the next lap keeps the page invariant |
| SessionPage.PreviousLapEffect | js/session.js:689-694 | at the first lap nothing changes; otherwise the marker moves back by one |
| SessionPage.PreviousLapOf | js/session.js:689-694 | moving to the previous lap keeps the page invariant |
| SessionPage.StatsFollowVideo | js/session.js:782-811 | keeps the invariant; with laps and a ready main player the marker becomes the lap whose interval holds the video time and the playhead is that time |
| SessionPage.StatsUpdated | js/session.js:782-811 | the statistics tick keeps the page invariant |
| SessionPage.RemoteCommandEffect | js/session.js:1948-1970 | unknown commands and SEEK without a value change nothing; SEEK sends both players to parseFloat(value) and leaves marker, playhead and laps alone |
| SessionPage.RemoteCommand | js/session.js:1948-1970 | every remote command keeps the page invariant |
| SessionPage.ClickSeeksBoth | js/session.js:1244-1281 | a click on a lap seeks main and compare to the same time, inside that lap's interval of the table |
| SessionPage.ClickSought | js/session.js:1244-1281 | a click keeps the page invariant and moves neither the marker nor the playhead, and changes no laps |
| SessionPage.Page.constructor | js/session.js:16-23 | the page starts in the initial state |
| SessionPage.Page.Load | js/session.js:2104-2118 | the new page state is the loaded state of the old one |
| SessionPage.Page.OnPlayerStateChange | js/session.js:522-556 | the new page state is the synced state of the old one |
| SessionPage.Page.TogglePlayPause | js/session.js:662-674 | the new page state is the toggled state of the old one |
| SessionPage.Page.SeekToLap | js/session.js:699-742 | the new page state is the sought state of the old one |
| SessionPage.Page.NextLap | js/session.js:679-685 | the new page state is the next-lap state of the old one |
| SessionPage.Page.PreviousLap | js/session.js:689-694 | the new page state is the previous-lap state of the old one |
| SessionPage.Page.UpdateLiveStats | js/session.js:782-811 | the new page state is the old one with the marker and playhead following the video |
| SessionPage.Page.HandleRemoteCommand | js/session.js:1948-1970 | the new page state is the old one after the dispatched command |
| SessionPage.Page.ClickSeek | js/session.js:1244-1281 | the new page state is the old one after the click-to-seek |
| SessionList.BestsKeys | js/index.js:222-247 | the personal-best (driver, track, config) and track-best (track, config) tables hold exactly the keys of the sessions |
| SessionList.BestsMinimal | js/index.js:226-246 | the time recorded under a key is no slower than the parsed fastest_lap of any session with that key |
| SessionList.BestsKeysAre | js/index.js:226-246 | the set of keys holding a record after the loop is the set of the sessions' keys |
| SessionList.RecordNotBeaten | js/index.js:226-246 | after the loop, any one session's key holds a record that session's time does not beat |
| SessionList.RecordKeepsBeaten | js/index.js:232-237 | one step never replaces a record by a slower time, so a session that did not beat its key's record still does not |
| SessionList.RecordHolds | js/index.js:232-237 | after one step, the session's own key holds a record that the session does not beat, whether it took the record or not |
| SessionList.BestsFirst | js/index.js:232-240 | because the comparison is a strict `<`, the recorded session is the first in list order to attain the recorded time |
| SessionList.SumOfFinite | js/index.js:274-275 | the sum of finite lap times is finite |
| SessionList.TrendRule | js/index.js:271-287 | from the third session on, against the average of up to 3 previous ones: improving exactly below 99% of it, declining exactly above 101%, stable otherwise |
| SessionList.PercentAbove | js/index.js:277-282 | an improvement above 1% means the time is below 99% of the average, and below -1% means above 101% |
| SessionList.TrendFromThird | js/index.js:269-272 | the first two sessions of a group get no trend, every later one gets one |
| SessionList.GroupOf | js/index.js:253-259 | a group holds exactly the sessions with that driver, track and config |
| SessionList.DatedGroupSorted | js/index.js:262-264 | each group sorted by date is a permutation of the group, in non-decreasing date order |
| SessionList.PrecedesMeans | js/index.js:474-484 | by date a session goes first when newer; otherwise when its time is smaller, newer first on equal times (two Infinity times compare as NaN, which falls back to the date) |
| SessionList.Compare | js/index.js:474-484 | sortSessions' comparator as written: no contract of its own; `SessionList.PrecedesMeans` states the order it gives |
| SessionList.Precedes | js/index.js:474-484 | a negative comparator places the first session first: no contract of its own; `SessionList.PrecedesMeans` states it |
| SessionList.SortSessionsSpec | js/index.js:472-484 | sorting yields a permutation, newest first by date, otherwise by non-decreasing time with newer first among equal times |
| SessionList.SortOrderIsStrictWeak | js/index.js:474-484 | the comparator is a strict weak order: transitive, irreflexive, and sessions neither of which goes before the other are interchangeable |
| SessionList.SortedSessionsStable | js/index.js:472-484 | sorting keeps sessions that compare equal (the same date, or the same lap time and date) in the order they had |
| SessionList.FilterList | js/index.js:499-545 | the filter keeps exactly the sessions matching every active condition (search in driver, track or kart, track, config, date window) |
| SessionList.Matches | js/index.js:499-545 | filterSessions' callback as written: no contract of its own; `SessionList.FilterList` and `SessionList.EmptyFiltersKeepAll` state what it keeps |
| SessionList.FilterAppend | js/index.js:499-545 | filtering works session by session, so the kept sessions stay in list order |
| SessionList.EmptyFiltersKeepAll | js/index.js:499-545 | with no search, track or config and the date filter 'all' every session is kept, in order |
| SessionList.FilterKeepsLast | js/index.js:499-545 | a matching last session is kept, at the end of the filtered list |
| Sorting.InsertionSort | js/index.js:472-484 | sorting returns a permutation of its input |
| Sorting.SortSorted | js/index.js:472-484 | under a transitive, irreflexive "goes before" the result is sorted and a permutation |
| Sorting.SortStable | js/index.js:472-484 | under a strict weak order the sort is stable: the elements that compare equal to any given one come out in the order they went in |
| Sorting.InsertStable | js/index.js:472-484 | inserting into a sorted list places the new element after every element already placed that compares equal to it |
| Sorting.EquivalentsAppend | js/index.js:472-484 | the elements comparing equal to a given one, taken from a concatenation, are those of each part in turn |
| Sorting.InsertSorted | js/index.js:472-484 | inserting into a sorted list keeps it sorted |
| ListPage.PageCount | js/index.js:360 | Math.ceil(n / 50): no pages for no sessions, otherwise the least count of 50-session pages holding all of them |
| ListPage.ClampPage | js/index.js:361-362 | the current page is clamped into [1, totalPages], and a page already inside is unchanged |
| ListPage.PageOf | js/index.js:364-366 | a page shows between 1 and 50 sessions |
| ListPage.PagesUpToPrefix | js/index.js:364-366 | the first k pages together are the first min(50k, n) sessions |
| ListPage.PagesPartition | js/index.js:359-366 | the pages, in order, put together give back the whole filtered list |
| ListPage.RenderShowsPage | js/index.js:351-366 | rendering keeps the filtered list, clamps the page, keeps a page already in range, and shows exactly that page's slice |
| ListPage.RenderEmpty | js/index.js:351-357 | with no filtered session nothing is shown and nothing changes |
| ListPage.Rendered | js/index.js:351-366 | rendering always leaves the page count and current page consistent with the list, and changes neither the list nor all sessions |
| ListPage.WentToPage | js/index.js:463-466 | going to any page, even one out of range, leaves a valid current page and the same list |
| ListPage.SortedBy | js/index.js:472-491 | sorting remembers the criterion and leaves a valid current page |
| ListPage.FilteredBy | js/index.js:493-550 | filtering leaves a valid current page and keeps all sessions |
| ListPage.FilterShowsFirstPage | js/index.js:493-550 | filtering keeps exactly the matching sessions (up to the sort that follows), keeps the sort criterion, and goes back to page 1 |
| ListPage.ComputeTrends | js/index.js:249-291 | the loop gives every session the trend of its date-sorted group |
| ListPage.UrlParams | js/index.js:60-75 | only the seven known parameters are ever written |
| ListPage.UrlOmitsDefaults | js/index.js:69-75 | a parameter is written exactly when it differs from its default; from/to only under 'custom'; all defaults give an empty query |
| ListPage.UrlRoundTrip | js/index.js:47-75 | reading the written parameters back gives the same filters and sort, except from/to which survive only under 'custom' |
| ListPage.UrlKeepsText | js/index.js:50-75 | search, track, config and sort read back as written |
| ListPage.UrlKeepsDates | js/index.js:53-74 | the date filter reads back as written, and from/to read back under 'custom' and as empty otherwise |
| ListPage.ConfigsToShow | js/index.js:301-304 | the configs offered are among all configs |
| ListPage.KeptConfig | js/index.js:313-317 | the current config is kept exactly when it is non-empty and offered; otherwise it becomes '' |
| ListPage.KeptConfigIsDriven | js/index.js:301-317 | with a track chosen, a kept config is one some session of that track was driven in |
| ListPage.SessionIndex.constructor | js/index.js:1-15 | the page starts empty, on page 1, sorted by date |
| ListPage.SessionIndex.CalculatePersonalBests | js/index.js:222-247 | the loop fills the personal-best and track-best tables of the sessions |
| ListPage.SessionIndex.CalculateTrends | js/index.js:249-291 | the loop stores every session's trend |
| ListPage.SessionIndex.RenderSessions | js/index.js:351-366 | the new state and the shown sessions are the rendering of the old state |
| ListPage.SessionIndex.GoToPage | js/index.js:463-466 | sets the page, then renders |
| ListPage.SessionIndex.SortSessions | js/index.js:472-491 | sorts the filtered list by the criterion, then renders |
| ListPage.SessionIndex.FilterSessions | js/index.js:493-550 | filters all sessions, resets to page 1, then sorts and renders |
| LapEditor.ManageParseTime | js/manage.js:243-250 | the editor's parseTime is never minus Infinity, and the empty string is Infinity |
| LapEditor.NoMinutesIsNaN | js/manage.js:245-247 | ":30" reads as NaN (parseInt("") * 60 + 30), the NaN the fastest-lap scan skips |
| LapEditor.MatchTime | js/manage.js:85 | the time pattern finds nothing exactly when the line has no digit |
| LapEditor.LineTime | js/manage.js:81-87 | a line contributes a time exactly when its trimmed text matches the pattern |
| LapEditor.WithMillisShape | js/manage.js:95-113 | digits with at most three decimals get exactly three decimals (".000" with no point, zero-filled otherwise) |
| LapEditor.NormalizeUnderMinute | js/manage.js:91-99 | a token under 60 seconds becomes "00:" and the three-decimal seconds zero-filled to 6 characters ("45" is "00:45.000", "5.1" is "00:05.100") |
| LapEditor.NormalizeOverMinute | js/manage.js:100-106 | a token of 60 seconds or more becomes whole minutes, ":", and the rest to three decimals zero-filled to 6 ("70.5" is "1:10.500") |
| LapEditor.NormalizeClock | js/manage.js:107-115 | a token with a colon gets 2-digit minutes and three-decimal seconds ("1:23" is "01:23.000"), and reads back as minutes * 60 + seconds |
| LapEditor.NormalizeTime | js/manage.js:91-115 | a normalised time always has a colon between minutes and seconds |
| LapEditor.ClockForm | js/manage.js:108-114 | with a colon the minutes are padded to 2 and the seconds given three decimals |
| LapEditor.ClockFieldsRead | js/manage.js:245-247 | a "minutes:seconds" text with readable fields reads as 60 * minutes + seconds |
| LapEditor.CollectedEmpty | js/manage.js:80-122 | the loop collects nothing exactly when no line yields a time |
| LapEditor.CollectedStep | js/manage.js:80-122 | each line adds its time to the collected list, or nothing when it yields none |
| LapEditor.NumberFrom | js/manage.js:117-120 | the k-th new lap is numbered after the existing laps and the k earlier new ones |
| LapEditor.CollectLaps | js/manage.js:78-122 | the line loop yields the numbered laps of the times the lines contribute |
| LapEditor.NothingFound | js/manage.js:124-131 | no lap is imported exactly when no line yields a time |
| LapEditor.BulkAppends | js/manage.js:73-131 | import keeps the existing laps as a prefix, appends one consecutively numbered lap per time found, changes nothing when none is found, and keeps the numbering 1..n |
| LapEditor.SpliceStart | js/manage.js:144 | splice's start: an index in range as is, a negative one counted from the end |
| LapEditor.Renumbered | js/manage.js:146 | renumbering keeps length and times and numbers the laps 1..n |
| LapEditor.RemoveLapSpec | js/manage.js:143-148 | removing a lap shortens the list by one, keeps the other times in order, and numbers the laps 1..n |
| LapEditor.AddKeepsNumbering | js/manage.js:135-141 | appending lap n+1 with an empty time keeps the numbering 1..n+1 |
| LapEditor.UpdateChangesOnlyTime | js/manage.js:150-152 | updating a time changes only that lap's time and not the numbering |
| LapEditor.FastestSpec | js/manage.js:198-207 | the scan finds no lap exactly when no time is finite; otherwise it finds the first lap with the strictly smallest time |
| LapEditor.FastestBound | js/manage.js:198-207 | no lap time is strictly below the time the scan keeps |
| LapEditor.FastestLapFieldSpec | js/manage.js:190-250 | saving refuses an empty list; fastest_lap is '' exactly when no time reads as finite, otherwise the time text of the first fastest lap |
| LapEditor.Editor.constructor | js/manage.js:13 | the editor starts with no laps |
| LapEditor.Editor.Populate | js/manage.js:58 | loading a session copies its laps |
| LapEditor.Editor.Reset | js/manage.js:174-183 | the reset empties the lap list |
| LapEditor.Editor.ProcessBulk | js/manage.js:73-132 | the laps become the bulk import of the old laps and the text; blank text, nothing found and the number imported are told apart |
| LapEditor.Editor.AddLap | js/manage.js:135-141 | the laps gain lap n+1 with an empty time |
| LapEditor.Editor.RemoveLap | js/manage.js:143-148 | the laps become the spliced list, renumbered 1..n by the loop |
| LapEditor.Editor.UpdateLapTime | js/manage.js:150-152 | the lap at the index gets the new time |
| LapEditor.Editor.SaveSession | js/manage.js:190-207 | the scan gives the fastest_lap field of the laps |
| Remote.Min | js/remote.js:46 | Math.min of two numbers that are not NaN is one of them and no greater than either |
| Remote.Max | js/remote.js:46 | Math.max of two numbers that are not NaN is one of them and no smaller than either |
| Remote.QuickSought | js/remote.js:45-54 | a quick seek keeps the duration 0 or positive, leaves the duration and the drag alone, and starts a seek |
| Remote.PositionUpdated | js/remote.js:163-174 | the pointer handler changes only the current time and keeps the duration 0 or positive |
| Remote.DragStarted | js/remote.js:183-201 | a press starts a drag and a seek, sends nothing, leaves the duration alone and keeps it 0 or positive |
| Remote.Dragged | js/remote.js:190-205 | a move changes only the current time, and nothing at all when no drag is in progress |
| Remote.SeekEnded | js/remote.js:176-181 | ending a seek leaves no drag, keeps the time, and sends at most one message |
| Remote.SeekTimerFired | js/remote.js:53 | the quick-seek timer clears the seeking flag and changes neither the time nor the messages |
| Remote.StatsReceived | js/remote.js:266-274 | statistics keep the duration 0 or positive, send nothing and leave both flags alone |
| Remote.FormatTime | js/remote.js:68-73 | every time is shown with a colon between minutes and seconds (its values are `Remote.FormatTimeFalsy` and `Remote.FormatTimeReadsBack`) |
| Remote.QuickSeekClamps | js/remote.js:45-54 | a quick seek moves the time by the offset clamped to [0, duration], sends SEEK with the new time only when the connection is open, and marks a seek in progress |
| Remote.QuickSeekBeforeStats | js/remote.js:46 | before any stats arrive (duration 0) a quick seek lands on 0 |
| Remote.PositionChangesOnlyTime | js/remote.js:163-174 | the pointer handler changes nothing while the duration is 0, changes only the current time otherwise, and a zero-width bar gives NaN |
| Remote.PositionWithinVideo | js/remote.js:163-174 | on a bar of positive width the new time is the clamped pointer fraction of the duration, so it lies within [0, duration] |
| Remote.BarFractionClamped | js/remote.js:166-167 | the pointer offset clamped to the bar over its width is a fraction in [0, 1] |
| Remote.SeekEndsOnce | js/remote.js:176-181 | ending a seek without a drag changes nothing; after a drag it clears both flags and sends one SEEK with the current time when the connection is open |
| Remote.StatsGuarded | js/remote.js:266-274 | stats are ignored while seeking or when their duration is not positive; otherwise they set the duration and the time (0 for a falsy time) and keep the invariant |
| Remote.HandlersKeepInvariant | js/remote.js:45-207 | every handler keeps the duration either 0 or positive |
| Remote.PercentageInRange | js/remote.js:57 | the progress percentage is 0 without a positive duration, and within [0, 100] for a time inside the video |
| Remote.FormatTimeFalsy | js/remote.js:69 | 0 and NaN are shown as "0:00" |
| Remote.FormatTimeReadsBack | js/remote.js:68-73 | a positive time is shown as minutes, ":", and two-digit seconds under 60 that read back as its whole seconds |
| Remote.WholeMinutesSeconds | js/remote.js:70-71 | floor(s / 60) and floor(s % 60) are the whole minutes and the remaining whole seconds |
| Remote.SeekReachesPage | js/session.js:1948-1970 | a SEEK the remote sends makes the session page seek both players to that time |
| Remote.RemotePage.constructor | js/remote.js:3-7 | the remote starts disconnected, not seeking or dragging, with time and duration 0 and nothing sent |
| Remote.RemotePage.SetConnected | js/remote.js:38-43 | the connection opens or closes and nothing else changes |
| Remote.RemotePage.SendCommand | js/remote.js:38-43 | a command is sent only over an open connection |
| Remote.RemotePage.HandleQuickSeek | js/remote.js:45-54 | the state becomes the quick seek of the old state |
| Remote.RemotePage.UpdatePosition | js/remote.js:163-174 | the state becomes the pointer update of the old state |
| Remote.RemotePage.StartDrag | js/remote.js:183-201 | a press starts a drag and a seek and moves to the pointer |
| Remote.RemotePage.Drag | js/remote.js:190-205 | a move follows the pointer only while dragging |
| Remote.RemotePage.EndSeek | js/remote.js:176-181 | the state becomes the end of the seek of the old state |
| Remote.RemotePage.SeekTimerElapsed | js/remote.js:53 | the quick-seek timer clears the seeking flag |
| Remote.RemotePage.UpdateStats | js/remote.js:248-275 | the state becomes the stats update of the old state |
| IndexScript.ParseTimeText | generate_list.py:28-41 | a blank string and a string with more than one colon read as None |
| IndexScript.ParseTimeToSeconds | generate_list.py:12-41 | a falsy value is None, a non-zero number is itself, True is 1.0, and a non-empty string is read as minutes:seconds or seconds |
| IndexScript.TotalSeconds | generate_list.py:56-57 | timedelta's total_seconds() is within half a microsecond of its argument |
| IndexScript.TwoDigitField | generate_list.py:62 | "%02d" is at least two characters |
| IndexScript.TwoDigitMinutes | generate_list.py:62 | minutes from 0 to 99 take exactly two characters |
| IndexScript.RemainingSeconds | generate_list.py:59-60 | the seconds left after the whole minutes are in [0, 60) |
| IndexScript.FormatSecondsToTime | generate_list.py:43-62 | a time is formatted exactly when one is given |
| IndexScript.ThousandthsOf | generate_list.py:62 | the seconds field holds at most 60000 thousandths ("60.000") |
| IndexScript.FormatShape | generate_list.py:43-62 | a formatted time is the "%02d" minutes, a colon, and the seconds to three decimals zero-filled to six characters |
| IndexScript.SecondsFieldWidth | generate_list.py:62 | the seconds field is exactly six characters |
| IndexScript.ReadFormattedClock | generate_list.py:12-62 | a minutes field, a colon and a zero-filled seconds field read back as 60 * minutes + seconds |
| IndexScript.FormatThenParse | generate_list.py:12-62 | every formatted time parses back, to its whole minutes times 60 plus the thousandths it shows |
| IndexScript.FormatThenParseWithin | generate_list.py:12-62 | formatting then parsing returns the time to within 0.0005005 seconds |
| IndexScript.FormatThenParseExact | generate_list.py:12-62 | a time in whole milliseconds survives formatting and parsing exactly |
| IndexScript.ExactMicroseconds | generate_list.py:56-57 | total_seconds() leaves a time in whole milliseconds unchanged |
| IndexScript.ValidTimes | generate_list.py:89-94 | the kept times are positive and no more than the laps |
| IndexScript.ValidTimesAppend | generate_list.py:89-94 | the laps are filtered one at a time: the kept times of two lists joined are the kept times of each, joined |
| IndexScript.ValidTimesOne | generate_list.py:91-94 | one lap is kept exactly when its time parses to a positive number |
| IndexScript.CollectValidTimes | generate_list.py:89-94 | the loop keeps, in order, the lap times that parse to a positive number |
| IndexScript.SumAtLeast | generate_list.py:106 | a sum of times none below m is at least their count times m |
| IndexScript.FastestAtMostAverage | generate_list.py:104-106 | the fastest valid lap is never slower than the average |
| IndexScript.ProcessSessionFile | generate_list.py:65-129 | no summary for an unreadable file or a falsy session_id; otherwise the fields are copied, laps_count counts the valid times, the metrics are None without one, and otherwise are their minimum and mean, formatted, with the fastest at most the average |
| SessionsScript.ParseTimeToSeconds | sessions/generate_list.py:11-25 | a falsy value is None, a truthy value that is not a string raises, and a string is read as the root script reads it |
| SessionsScript.ParsedTimes | sessions/generate_list.py:59-67 | no more times are counted than there are laps |
| SessionsScript.ParsedTimesRaises | sessions/generate_list.py:59-67 | the lap loop raises exactly when some lap time is truthy but not a string |
| SessionsScript.UnstrippableRaises | sessions/generate_list.py:13-63 | one truthy lap time that is not a string makes the whole loop raise |
| SessionsScript.RaisingLap | sessions/generate_list.py:13-63 | a loop that raises has a truthy lap time that is not a string |
| SessionsScript.CollectParsedTimes | sessions/generate_list.py:59-65 | the loop collects, in order, every lap time that parses, zero and negative ones included, or raises |
| SessionsScript.Positives | sessions/generate_list.py:64 | the positive entries are among the times and no more of them |
| SessionsScript.RootKeepsPositives | sessions/generate_list.py:59-65 | where this script finishes, the root script keeps exactly the positive times among those this script counts |
| SessionsScript.ProcessSessionFile | sessions/generate_list.py:43-91 | raises exactly when the id is truthy and some lap time is truthy but not a string; None exactly for an unreadable file or falsy id; otherwise copies the fields and fastest_lap, counts every parsed time, formats their mean, and counts at least as many laps as the root script |
| SessionsScript.AsDict | sessions/generate_list.py:77-89 | the summary has exactly the eight keys the list expects, with "id" holding the session id |
| SessionsScript.ReassignId | sessions/generate_list.py:113 | popping 'id' and putting it back leaves the summary unchanged |

## Notes

- **Player sync follows the code.** `onPlayerStateChange` (js/session.js:522-556) treats only PLAYING as playing. A BUFFERING player counts as not playing, so its partner is paused.
- **A player whose API is not ready yet.** `SessionPage.Send` skips a command to such a player.
  - `togglePlayPause` and `seekToLap` test for the method before calling it, so skipping is what they do.
  - `onPlayerStateChange` calls the partner without a test, so the browser throws. That call is the handler's last action, so the outcome is the same: no command.
- **Dictionary values.** Python truthiness of a JSON value is the same predicate as JavaScript truthiness (`JsonTruthy`). The two languages agree on every JSON value except the empty array and object, which are not modelled as lap times.

## Left out

- The YouTube IFrame API, the DOM, canvas painting, timers, PeerJS, `fetch`, `localStorage` and the clipboard are external. Only the values the scripts read from them, and the commands they issue to them, are modelled, as parameters and as command logs.
- Dates and time zones: dates are integer timestamps in milliseconds given as parameters, and "today" is a parameter.
- The trend percentage's display with `toFixed(1)` (js/index.js:281-284) is not modelled; the trend direction is.
- `calculateConsistency` (a square root over the lap times) and `extractYouTubeId` are outside the lap-time core.
- `scripts/session.js` only touches the DOM.
- Binary floating point: numbers are exact reals, so binary rounding and the sign of zero are not represented.
  - `toFixed(3)` rounds the exact value half up, and Python's "%.3f" and `timedelta` round it half to even.
  - A remainder of 59.9995 seconds or more is written "60.000" by both, and the model keeps that.
- Numerals: `parseFloat`, `parseInt` and `float()` read decimal numerals only (sign, digits, optional fraction). Exponents, "Infinity"/"inf"/"nan", hexadecimal and underscores are not read.
- LapEditor.NormalizeUnderMinute: stated for tokens with at most three decimals. A longer fraction, which the pattern in js/manage.js:85 also matches, is handled by `NormalizeTime`, but no lemma describes its result.
- LapEditor.NormalizeOverMinute: stated for tokens with at most three decimals, for the same reason.
- LapEditor.NormalizeClock: stated for seconds with at most three decimals, for the same reason.
- Text.ToLower: folds the ASCII and Latin-1 capitals only. `toLowerCase` folds every Unicode capital, including Greek, Cyrillic and Latin Extended letters, and turns 'İ' into two characters. A search that differs from a driver, track or kart name only in the case of such a letter matches in the browser (js/index.js:500-504) but not in the model.
- `timedelta` overflow for times beyond its range (about 10^9 days) is not modelled.
- Lap time values that are JSON arrays or objects are not modelled in either generator. A lap entry that is not an object, and a `laps` value that is not a list, make both generators raise; the model takes the list of "time" values.
- File reading: a file that cannot be read (OSError) or is not JSON (JSONDecodeError) is `None`. The sessions/ generator does not catch OSError; in the model such a file is `None` as well.
- Undecodable files: a file that is not valid text in its encoding raises UnicodeDecodeError. That error escapes `read_text` (generate_list.py:76) and `json.load` (sessions/generate_list.py:45-47) uncaught and aborts the whole script. The model has no such outcome: its input is a decoded file or `None`.
- The directory scan and JSON writing (generate_list.py:131-157, sessions/generate_list.py:93-128) are outside the model, except the pop and re-insertion of 'id', which is modelled on a map. Dictionary key order is not modelled.
- generate_list.py:162-279 repeats earlier definitions under the same names. Run as a script, the file calls `generate_sessions_list()` at lines 159-160, while only the first definitions exist, so those do the work. The model follows them (lines 12-129). The later definitions run only through the second call at lines 278-279. That call stops with a NameError at line 256, because `os` is never imported (lines 1-4). That second run is not modelled.
- Remote payloads: a missing or null `duration` or `currentTime` in a STATS message is NaN in the model. Both fail `> 0` and both are falsy, as in the browser.
- Chart: the chart functions take the lap durations already parsed; the canvas size is a parameter.
- LapEditor.FastestOf and LapEditor.CollectWith take the time reader and the line reader as function parameters; the editor uses them with `ManageParseTime` and `LineTime`.
- LapEditor.Editor.UpdateLapTime requires an index that has a lap. The page only offers those, and in the browser an index without a lap throws a TypeError.
- Lap times in the editor are strings; a non-string `time` loaded from a session file is not modelled.
- Sorting.InsertionSort: `Array.prototype.sort` sorts in place, but the model sorts a sequence value and the page's list field is reassigned. Aliasing of the sessions array between the full and the filtered list is not modelled.
