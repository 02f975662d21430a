# eclipse2024 display gadget — a Dafny model

eclipse2024 is a small battery-powered gadget for photographing the total
solar eclipse of April 2024. It reads GPS, decides whether and when its
location sees totality (by scanning a shapefile of umbra shapes), keeps a
schedule of picture-taking events, sounds a buzzer ahead of each event, and
cycles a small display through a ring of pages. This project models its core
in Dafny and proves properties of that model:

- **CInt** — C++ integer semantics the code relies on: truncating `/` and
  `%`, and the truncating cast from `double` to `int`.
- **Text** — `ostream` printing of integers and `std::setw`/`std::setfill`
  padding.
- **Functions** — `Hms`, which splits seconds into hours, minutes and
  seconds, and the duration and clock texts written from it. A reader of
  those texts proves that they round-trip.
- **Display** — `DisplayInfo` and `DisplayStuff`: the shared state that the
  GPS, the clock and the sensors write, and that the UI reads with its
  change flags.
- **Pages**, **SunPages**, **Schedule**, **Network** — the pages' `select`
  decisions. They also cover the sun pages' update throttle and peak search,
  the schedule page's event table and alerts, and the network page's
  interface set with its reconciliation.
- **Umbra** — the scan over the umbra shapes that answers "is this location
  in totality, and from when to when", including the resume heuristic.
- **Attention** — the buzzer scheduler: an ordered record collection and one
  step of its worker thread.
- **RunUi** — the page ring: forward and backward search for a page that
  accepts, pinning, the automatic page switch and the hand-over of a page
  from the scheduler.
- **ImagePath** — how `main` derives its image directories from `argv[0]`.

Classes model the objects that the source updates in place: `Hms`,
`DisplayStuff`, `SunAzPage`, `SunElPage`, `Umbra`, `Scheduler`,
`SchedulePage`, `NetworkPage` and `RunUi`. Each method is specified against
a function of the old state, and the properties are proved about that
function.

## Notes on the code's behaviour

These facts about the code shape the model:

- The Notice sound is two beeps: on 150 ms, off 150 ms, on 150 ms
  (Attention.cpp:140-147).
- The Time waveform keeps the worker busy for 4000 ms (Attention.cpp:148-167).
  Its back-off `buzlen` is 3100 ms (Attention.cpp:72-77). See
  `Attention.TimeOutlastsBackOff`.
- The scanner never assigns the longitude it resumes from. `poslon`
  (Umbra.hpp:56) is only read, at Umbra.cpp:48, so it stays at its initial
  value.
- The retry from index 0 happens whenever the previous first hit is `>= 0`
  (Umbra.cpp:113-116).
- The resumed start is first clamped to 0 and then to `total - 256`
  (Umbra.cpp:57-62). With fewer than 256 shapes it can therefore be
  negative, and the check then fails with `NoFeature`.
- When a single shape contains the location, `check` leaves `endT` at its
  previous value. Only a later hit sets it (Umbra.cpp:95-104).
- When the worker fires a record, it erases every record of the same second
  (Attention.cpp:129-130). Only one record fires per second.
- The pending page is an `int` that uses -1 for "none" (Attention.cpp:213)
  and 42 for "shut down" (Attention.cpp:36, 83-86).

## Model

| member | source | states |
|---|---|---|
| CInt.Div | Functions.cpp:86-90 | C++ `/` by a positive divisor: the remainder left by the quotient lies in `[0, b)` for a non-negative dividend and in `(-b, 0]` for a negative one (truncation toward zero) |
| CInt.Rem | Functions.cpp:86-90 | C++ `%`: `a == b*Div(a,b) + r`, the remainder is smaller than `b` in magnitude, and `r` has the sign of `a` |
| CInt.Trunc | SchedulePage.cpp:64-82 | a `double`-to-`int` cast lands within one of its argument, on the side of zero |
| CInt.DivNonNegative | Functions.cpp:86-90 | for a non-negative dividend C++ division and remainder agree with Euclidean ones |
| CInt.TruncOfEighths | SchedulePage.cpp:64-82 | truncating `n/8.0` is C++ integer division of `n` by 8, for every sign of `n` |
| Text.DigitChar | Functions.cpp:92-101 | the character written for a digit reads back as that digit |
| Text.NatToString | Functions.cpp:92-101 | `os << n` writes at least one digit and no leading zero |
| Text.ParseNatToString | Functions.cpp:92-101 | the digits written for `n` read back as `n` |
| Text.NatToStringLength | Functions.cpp:109-112 | one digit exactly below 10, two exactly from 10 to 99 |
| Text.IntToString | Functions.cpp:92-101 | `os << i` writes an optional sign and at least one digit; the sign is `-` exactly for a negative value, and the digits have no leading zero |
| Text.ParseIntToString | Functions.cpp:92-101 | the signed text written for any `int` reads back as that `int` |
| Text.IntToStringInjective | Functions.cpp:92-101 | different `int`s are written as different texts |
| Text.PadLeft | Functions.cpp:109-112 | `setw(w)`/`setfill(c)`: length `w` or that of `s`, whichever is larger, ends with `s`, filled with `c` in front |
| Functions.Split | Functions.cpp:86-90 | the three parts add back up to the seconds; for non-negative input minutes and seconds are in `[0,60)`, for non-positive input in `(-60,0]` |
| Functions.SplitBounds | Functions.cpp:86-90 | `seconds/60 - hours*60` stays within one hour, for either sign |
| Functions.Hms.constructor | Functions.hpp:84-86 | a new `Hms` holds the split of its seconds |
| Functions.Hms.Set | Functions.cpp:86-90 | after `set` the fields add back up to the given seconds |
| Functions.WriteDuration | Functions.cpp:92-107 | `writeDuration`: hours only when non-zero, minutes when hours or minutes are non-zero, zero-padded to two places after a higher field, then the seconds |
| Functions.WriteTime | Functions.cpp:109-118 | `writeTime`: hours space-padded to two places, minutes and seconds zero-padded, separated by `:` |
| Functions.Hms.Duration | Functions.cpp:92-107 | `duration()` writes the current fields with `writeDuration` |
| Functions.Hms.Time | Functions.cpp:109-118 | `time()` writes the current fields with `writeTime` |
| Functions.ReadFromConcat | Functions.cpp:92-101 | reading a text in two pieces is reading it whole |
| Functions.ReadFromDigits | Functions.cpp:92-101 | reading a run of digits accumulates their value |
| Functions.ParseNatLeadingZero | Functions.cpp:109-112 | a `0` fill character in front does not change a number's value |
| Functions.ReadNumber | Functions.cpp:92-101 | a number written with or without zero padding reads back as itself |
| Functions.ReadField | Functions.cpp:92-101 | a number followed by `h`, `m` or `s` adds that many hours, minutes or seconds |
| Functions.ReadTwo | Functions.cpp:92-101 | reading two consecutive fields composes |
| Functions.DurationWithHours | Functions.cpp:92-101 | a duration written with an hours field reads back as its seconds |
| Functions.DurationWithMinutes | Functions.cpp:92-101 | a duration starting with minutes reads back as its seconds |
| Functions.DurationSecondsOnly | Functions.cpp:92-101 | a duration of seconds alone reads back as its seconds |
| Functions.DurationReadsBack | Functions.cpp:92-107 | for every non-negative count, the text `duration()` writes reads back as that count |
| Functions.ReadHours | Functions.cpp:109-112 | space-padded hours below 100 read back as themselves |
| Functions.ReadColon | Functions.cpp:109-112 | a `:` carries the total read so far into the next unit |
| Functions.ReadClockField | Functions.cpp:109-112 | a zero-padded two-place field after a `:` reads back as its value |
| Functions.TwoPlaces | Functions.cpp:109-112 | a field below 100 fills exactly the two places `setw(2)` asks for |
| Functions.ColonsAt | Functions.cpp:109-112 | three two-place fields joined by `:` give 8 characters with colons at 2 and 5 |
| Functions.TimePartsShape | Functions.cpp:109-112 | a clock text of hours below 100 is `HH:MM:SS`, 8 characters |
| Functions.TimePartsReadBack | Functions.cpp:109-112 | a clock text reads back as the seconds its parts denote |
| Functions.HoursBelow100 | Functions.cpp:86-90 | below 100 hours of seconds the hours part is below 100 |
| Functions.TimeShape | Functions.cpp:109-118 | for a time below 100 hours `time()` writes exactly `HH:MM:SS` |
| Functions.TimeReadsBack | Functions.cpp:109-118 | for a time below 100 hours the text `time()` writes reads back as that time |
| Display.OffsetLaws | Functions.hpp:24-26 | the zero offset stores a position unchanged, offsets added one after another compose into their sum, and adding an offset's negation undoes it |
| Display.DefaultInfo | DisplayStuff.hpp:19-53 | no totality known (start and end at the end of the day), no flag set, no fix, no error, no test |
| Display.ClearFlags | DisplayStuff.cpp:146-150 | every change flag clear and every other field untouched |
| Display.DisplayStuff.constructor | DisplayStuff.hpp:69-71 | default state with no position and no time offset |
| Display.DisplayStuff.SetTime | DisplayStuff.cpp:18-21 | `now` is the given time plus the time offset; nothing else changes |
| Display.DisplayStuff.SetTimeOffset | DisplayStuff.cpp:23-31 | the new offset replaces the old in `now` (the underlying time is kept) and totality is flagged as changed |
| Display.DisplayStuff.SetCheckLoc | DisplayStuff.cpp:33-37 | the offset position is stored and flagged and the fix counts as good |
| Display.DisplayStuff.SetCurrLoc | DisplayStuff.cpp:39-45 | the offset position, its error and satellite count are stored and flagged; the fix is good |
| Display.DisplayStuff.SetLocOffset | DisplayStuff.cpp:47-52 | a new offset flags a position and a totality change |
| Display.DisplayStuff.GetLocOffset | DisplayStuff.cpp:54-57 | returns the position offset |
| Display.DisplayStuff.BadFix | DisplayStuff.cpp:96-100 | the fix is no longer good and that is flagged as a position change |
| Display.DisplayStuff.UpdateTotality | DisplayStuff.cpp:102-111 | the state and its flag change exactly when some totality value differs |
| Display.DisplayStuff.SetNotice | DisplayStuff.cpp:113-118 | the notice is stored, stamped with the current `now`, and flagged |
| Display.DisplayStuff.SetError | DisplayStuff.cpp:120-130 | an error with a count no higher than the pending one is ignored; a higher count replaces the count, and the message too (flagged) when it differs |
| Display.DisplayStuff.ClearError | DisplayStuff.cpp:132-136 | no error count and no message remain |
| Display.DisplayStuff.DecError | DisplayStuff.cpp:138-144 | the count goes down by one and never below zero; the message stays |
| Display.DisplayStuff.GetInfo | DisplayStuff.cpp:146-150 | the caller gets the state as it was; afterwards every change flag is clear and nothing else changed |
| Display.DisplayStuff.SetTesting | DisplayStuff.cpp:152-155 | only the test mark changes |
| Display.OnlyLastOffsetCounts | DisplayStuff.cpp:18-31 | two offsets in a row: `now` carries only the last, also for a later `setTime` |
| Display.TwoErrors | DisplayStuff.cpp:120-130 | of two errors the one with the higher positive count is shown |
| Display.FlagsReportedOnce | DisplayStuff.cpp:146-150 | a change is reported by the first `getInfo` and not by the second |
| Display.ErrorCountsDown | DisplayStuff.cpp:120-144 | an error of count 2 counts down to 1 and then stays at zero, and its message is kept |
| Pages.Respond | Pages.cpp:15-23 | a page is selected exactly when its condition holds |
| Pages.ClockSelect | Pages.cpp:15-23 | the clock page's `select` |
| Pages.EclipseSelect | Pages.cpp:77-93 | the eclipse page's `select` |
| Pages.TotalitySelect | Pages.cpp:143-151 | the totality page's `select` |
| Pages.SystemSelect | Pages.cpp:201-220 | the system page's `select` |
| Pages.SensorSelect | Pages.cpp:257-265 | the sensor page's `select` |
| Pages.MenuSelect | MenuPage.cpp:196-204 | the menu page's `select` |
| Pages.GpsSelect | Pages.cpp:33-35 | the GPS page always accepts |
| Pages.ClockAutoWhenProblem | Pages.cpp:15-23 | the user can always choose the clock; automatic cycling shows it exactly when there is no good fix or an error |
| Pages.EclipseNeedsFixWhenAuto | Pages.cpp:77-93 | the user can always choose the eclipse page; automatically it needs a good fix and the eclipse not over |
| Pages.TotalityNeedsTotality | Pages.cpp:143-151 | without a totality the page is skipped even for the user; automatically it is shown only until totality ends |
| Pages.SystemSkippedDuringEclipse | Pages.cpp:201-220 | the user can always choose it; automatically it is skipped exactly during the eclipse with a good fix |
| Pages.SensorIgnoresCause | Pages.cpp:257-265 | the sensor page answers the same whoever asks |
| Pages.MenuOnlyByUser | MenuPage.cpp:196-204 | the menu is selected exactly when the user asks |
| SunPages.SunSelectNeedsFix | SunPages.cpp:15-28 | both sun pages need a good fix; automatic cycling skips them during the eclipse |
| SunPages.SunSelect | SunPages.cpp:15-28 | the `select` shared by both sun pages |
| SunPages.SunSelectAgainstSystem | SunPages.cpp:101-114 | with a good fix the sun pages accept automatically exactly when the system page does |
| SunPages.MidTotality | SunPages.cpp:137 | mid-totality lies between start and end, rounded toward the start |
| SunPages.Countdown | SunPages.cpp:39-45 | the counter stays in `[0,8]`; it recomputes exactly at 0 and is then reset to 8 |
| SunPages.CounterAfter | SunPages.cpp:30-37 | the counter never leaves `[0,8]` |
| SunPages.CounterCycle | SunPages.cpp:116-138 | after `n` updates the counter is `8 - (n-1) mod 9` |
| SunPages.ThrottlePeriod | SunPages.cpp:124-138 | the first update after `show` recomputes, and then exactly every ninth |
| SunPages.PeakIsUnique | SunPages.cpp:156-161 | the peak elevation is determined by the samples |
| SunPages.PeakElevation | SunPages.cpp:156-161 | the search returns the highest elevation (or zero) sampled every 64 s from the eclipse's start, the end excluded unless it is the first sample |
| SunPages.SunAzPage.constructor | SunPages.cpp:30-37 | the counter starts as `show` would set it |
| SunPages.SunAzPage.Show | SunPages.cpp:30-37 | the next update recomputes |
| SunPages.SunAzPage.Update | SunPages.cpp:39-94 | recomputes when the counter allows; asks for the sun position now only, or also at mid-totality during a totality |
| SunPages.SunElPage.constructor | SunPages.cpp:116-122 | the counter starts as `show` would set it |
| SunPages.SunElPage.Show | SunPages.cpp:116-122 | the next update recomputes; kept values stay |
| SunPages.SunElPage.Update | SunPages.cpp:124-174 | kept values are refreshed exactly on a recomputation in a totality whose mid-time, totality or position changed; the peak is then the eclipse's peak elevation |
| SunPages.SunElPage.Refresh | SunPages.cpp:137-160 | the recomputation keeps mid-totality, the elevation there and the highest elevation over the 64-second samples of the eclipse |
| SunPages.ShowThenTenUpdates | SunPages.cpp:116-138 | after `show`, of ten updates only the first and the tenth recompute |
| Umbra.Open | Umbra.cpp:16-32 | the layer is opened exactly when the file and the `umbra_hi` layer exist; otherwise the matching error |
| Umbra.Abs | Umbra.cpp:83-91 | the magnitude of its argument |
| Umbra.FirstHit | Umbra.cpp:73-111 | the first shape at or after the start that passes the centre filter and contains the location, or none |
| Umbra.LastHit | Umbra.cpp:95-111 | the last hit is the first hit or a later shape that contains the location |
| Umbra.LastHitShape | Umbra.cpp:95-111 | the scan stops after four misses in a row or at the end; between first and last hit there is no run of four misses |
| Umbra.Scan | Umbra.cpp:73-111 | one scan: the first hit sets `first`/`startT`, a later last hit sets `last`/`endT` |
| Umbra.CheckSpec | Umbra.cpp:34-130 | `check`: an index outside the layer is an error; a resumed scan that finds nothing retries once from index 0 |
| Umbra.HeuristicStartBounds | Umbra.cpp:40-62 | with at least 256 shapes the resumed start is a valid index; it is negative only with fewer |
| Umbra.HeuristicStart | Umbra.cpp:40-62 | where a resumed scan starts: 162 shapes back from the previous first hit, shifted by the longitude moved, clamped to the data |
| Umbra.HeuristicWestward | Umbra.cpp:40-62 | moving west never resumes later than the previous first hit less 162 |
| Umbra.CheckFalseMeansNoCandidate | Umbra.cpp:113-129 | a "not in totality" answer means no shape within 1.4° of the centre line contains the location, and the remembered times stay |
| Umbra.CheckTrueIsSound | Umbra.cpp:95-129 | an "in totality" answer comes with a first shape containing the location, whose time is `startT`, and a last hit bounding `endT` |
| Umbra.CheckFailsOnlyOnBadStart | Umbra.cpp:64-72 | on a non-empty layer, a scan from 0, or resumed with at least 256 shapes, never fails |
| Umbra.CheckErrorIndex | Umbra.cpp:70-72 | a failure names a start index that is no shape's |
| Umbra.EmptyLayerFails | Umbra.cpp:70-72 | a layer without shapes always fails |
| Umbra.Umbra.constructor | Umbra.cpp:16-32 | a scanner over the opened layer with no previous hit |
| Umbra.Umbra.ScanFrom | Umbra.cpp:73-111 | the loop's answer and remembered state are the scan specification's |
| Umbra.ScanShapes | Umbra.cpp:73-111 | the scan loop answers as the scan specification: the first candidate past the centre pre-filter, then the last hit before four consecutive misses |
| Umbra.ScanStep | Umbra.cpp:83-108 | examining one shape keeps the loop state: nothing remembered before the first hit; after it the latest hit, the misses since, and the same final answer |
| Umbra.Umbra.Check | Umbra.cpp:34-130 | the answer and the new remembered state are `check`'s specification, retry included |
| Attention.Ordinal | Attention.hpp:25-31 | each sound kind has an enumerator below `Total` |
| Attention.FromOrdinal | Attention.hpp:25-31 | each enumerator below `Total` names the sound kind with that value |
| Attention.OrdinalRoundTrip | Attention.hpp:25-31 | sound kinds and enumerators correspond one to one |
| Attention.WaveformAgainstBackOff | Attention.cpp:72-77 | the back-off matches the waveform's length for Notice (450 ms, two beeps) and Warning (400 ms) |
| Attention.Waveform | Attention.cpp:137-174 | the tones and silences each sound kind plays |
| Attention.BuzLen | Attention.cpp:72-77 | the back-off of each sound kind in milliseconds |
| Attention.TimeOutlastsBackOff | Attention.cpp:137-174 | the Time waveform plays 4000 ms (four beeps) against a back-off of 3100 ms; its last tone starts after 3000 ms |
| Attention.UpperBound | Attention.hpp:41-57 | the end of the range of records not later than `t` in the time index |
| Attention.Insert | Attention.cpp:194-198 | one record longer |
| Attention.InsertCount | Attention.cpp:194-198 | `emplace` adds exactly the one record |
| Attention.InsertSorted | Attention.cpp:194-198 | `emplace` keeps the time index in order |
| Attention.InsertAtUpperBound | Attention.hpp:41-57 | a record goes after all records of the same or earlier time |
| Attention.WithoutPage | Attention.cpp:200-207 | exactly the records of other pages remain, in order |
| Attention.DropPast | Attention.cpp:105-107 | the front is no longer in the past, and the order is kept |
| Attention.DropTime | Attention.cpp:125-130 | no record of the fired time is left at the front, and the order is kept |
| Attention.ChooseFrom | Attention.cpp:113-119 | the worker's choice among the earliest records |
| Attention.Choose | Attention.cpp:113-119 | the chosen record is the first of lowest priority among the earliest |
| Attention.ChoiceIsUnique | Attention.cpp:113-119 | the choice rule names exactly one record |
| Attention.InsertKeepsEqualTimeOrder | Attention.hpp:41-57 | a new record follows every present record of its time |
| Attention.DuplicatesKept | Attention.hpp:41-57 | a second copy of a record is kept beside the first |
| Attention.RemoveExact | Attention.cpp:200-207 | after `remove(p)` nothing for `p` remains and everything else does |
| Attention.DropPastKeepsFuture | Attention.cpp:105-107 | erasing the past keeps exactly the records not yet past |
| Attention.DropTimeLeavesLater | Attention.cpp:125-130 | after firing, exactly the later records remain |
| Attention.StepKeepsFuture | Attention.cpp:79-192 | after one worker iteration the records stay in order and none is past |
| Attention.StepKeepsCurrentSecond | Attention.cpp:94-107 | a record due in the current second is not erased as past |
| Attention.NowSeconds | Attention.cpp:93-99 | the worker's "now" in seconds: the clock plus the test offset |
| Attention.StepFiresEarliest | Attention.cpp:113-130 | the fired record has the earliest time not yet past |
| Attention.StepFiresLowestPriority | Attention.cpp:113-130 | the fired record has the lowest priority of its time, the first such one |
| Attention.StepFiringClearsItsTime | Attention.cpp:125-130 | firing erases exactly the records of its time |
| Attention.StepWaitsForDelay | Attention.cpp:120-123 | the worker waits exactly when the choice is 16 ms or more away, for that long |
| Attention.Delay | Attention.cpp:120-123 | the wait before a record: its time less "now" less its sound's back-off |
| Attention.StepSpec | Attention.cpp:79-192 | one iteration of the worker: stop on the shutdown value, drop past records, idle when none are left, otherwise fire the chosen record or wait for it |
| Attention.FiringsIncreaseInTime | Attention.cpp:79-192 | two successive firings are for strictly increasing times |
| Attention.RemovedPageNeverFires | Attention.cpp:200-207 | once a page's records are removed, no iteration fires that page |
| Attention.ChooseIndex | Attention.cpp:113-119 | the loop finds the worker's choice |
| Attention.Scheduler.constructor | Attention.hpp:64-65 | no records, no page pending, no offset |
| Attention.Scheduler.Add | Attention.cpp:194-198 | exactly the one record is added, in time order |
| Attention.Scheduler.Remove | Attention.cpp:200-207 | every record of the page goes, whatever its time; the rest stay |
| Attention.Scheduler.ChangeToPage | Attention.cpp:209-215 | the pending page is handed over once and reset to none |
| Attention.Scheduler.TimeOffset | Attention.hpp:80-83 | only the offset changes |
| Attention.Scheduler.Shutdown | Attention.cpp:32-38 | no records and the shutdown value pending |
| Attention.Scheduler.Step | Attention.cpp:79-192 | one iteration of the worker follows its specification |
| Attention.PageHandedOverOnce | Attention.cpp:125-130 | a due record fires, and its page is handed to the UI once |
| Attention.RemovedBeforeDue | Attention.cpp:200-207 | a record removed before it is due never fires |
| Attention.ShutdownWithoutRecords | Attention.cpp:83-88 | shutdown ends the worker even when nothing was scheduled |
| Schedule.ScheduleNeedsTotality | SchedulePage.cpp:33-44 | needs a totality; automatically it is offered until three minutes after the eclipse ends |
| Schedule.ScheduleSelect | SchedulePage.cpp:33-44 | the schedule page's `select` |
| Schedule.PlanUpTo | SchedulePage.cpp:62-111 | the first `n` planned events, each at its position |
| Schedule.Plan | SchedulePage.cpp:62-111 | twenty events, in the order `makeEvents` emplaces them |
| Schedule.EntryAt | SchedulePage.cpp:62-111 | the event `makeEvents` emplaces at each position of its sequence |
| Schedule.Table | SchedulePage.cpp:62-111 | the event table the emplaces leave: the first event planned at each time |
| Schedule.AttnRecords | SchedulePage.cpp:46-50 | the three alerts `addAttn` adds for an event |
| Schedule.AllAlerts | SchedulePage.cpp:52-111 | every alert the plan adds, in order |
| Schedule.Emplace | SchedulePage.cpp:62-111 | `std::map::emplace`: one more key; a time already present keeps its event |
| Schedule.InsertAllSorted | SchedulePage.cpp:46-50 | successive `add` calls keep the time index in order |
| Schedule.InsertAllAdds | SchedulePage.cpp:46-50 | successive `add` calls add exactly their records |
| Schedule.InsertAllAppend | SchedulePage.cpp:46-50 | two batches of `add` calls are one batch of both |
| Schedule.AlertsShape | SchedulePage.cpp:46-50 | every alert is for the schedule page with priority 3; each event gives three alerts, or one for a warning |
| Schedule.PlanAlertCount | SchedulePage.cpp:52-111 | a totality's plan gives 56 alerts, all for the schedule page |
| Schedule.PartsApart | SchedulePage.cpp:64-107 | consecutive partial-phase pictures are at least 572 s apart |
| Schedule.PlanIncreasing | SchedulePage.cpp:62-111 | with a totality of two seconds or more the events are in strictly increasing time |
| Schedule.StrictlyBefore | SchedulePage.cpp:62-111 | with a totality of no length, every event other than mid- and end-of-totality is strictly earlier than each later such event |
| Schedule.TableOfIncreasing | SchedulePage.cpp:62-111 | with distinct times every event keeps its own entry in the table |
| Schedule.TableKeys | SchedulePage.cpp:62-111 | the table's keys are exactly the plan's times |
| Schedule.TableKeepsFirst | SchedulePage.cpp:62-111 | the first event at a time is the one the table keeps |
| Schedule.PlanTableComplete | SchedulePage.cpp:62-111 | with a totality of two seconds or more the table holds all twenty events at their times |
| Schedule.InstantTotality | SchedulePage.cpp:85-96 | for a zero-length totality the three totality events share one time, "Totality" is kept, and 18 entries remain |
| Schedule.SchedulePage.constructor | SchedulePage.cpp:18-31 | no table, and no totality known |
| Schedule.SchedulePage.AddAttn | SchedulePage.cpp:46-50 | two notices a minute and half a minute before, and the time signal |
| Schedule.SchedulePage.AddAlerts | SchedulePage.cpp:62-111 | the alerts of one event are handed to the scheduler |
| Schedule.SchedulePage.Emit | SchedulePage.cpp:62-111 | one event emplaced and its alerts added: the table and records grow by one plan position |
| Schedule.SchedulePage.PartsBeforeTotality | SchedulePage.cpp:64-82 | the first loop emplaces plan positions 1 to 8 |
| Schedule.SchedulePage.PictureBefore | SchedulePage.cpp:71-81 | one pass of the first loop emplaces picture `cnt`, and after the sixth the video setup, at their plan positions |
| Schedule.SchedulePage.SetupVideo | SchedulePage.cpp:76-81 | the video setup is plan position 7: a warning 32 seconds after the sixth picture |
| Schedule.SchedulePage.PartsAfterTotality | SchedulePage.cpp:97-107 | the second loop emplaces plan positions 12 to 18 |
| Schedule.SchedulePage.Build | SchedulePage.cpp:62-111 | the whole plan is in the table and its alerts are added |
| Schedule.SchedulePage.BuildToTotality | SchedulePage.cpp:62-86 | plan positions 0 to 9, up to the totality's start, are in the table and their alerts are added |
| Schedule.SchedulePage.BuildFromTotality | SchedulePage.cpp:87-109 | positions 10 to 19, from mid-totality to the last picture, complete the plan |
| Schedule.SchedulePage.MakeEvents | SchedulePage.cpp:52-111 | the table is the plan's (or empty), the page's old alerts are replaced by the plan's, and the times are recorded |
| Schedule.SchedulePage.Show | SchedulePage.cpp:151-171 | the table is rebuilt; the records are the old ones without this page's plus the new plan's alerts, so every other page's are kept; the scheduler's pending page and offset are kept; a totality is remembered, otherwise the remembered times stay |
| Schedule.SchedulePage.Update | SchedulePage.cpp:177-181 | exactly when totality changed with a good fix, the table, this page's records and the remembered totality are rebuilt as `show` does; otherwise nothing changes; the scheduler's pending page and offset are always kept |
| Schedule.FixedEntries | SchedulePage.cpp:62-111 | start and end pictures, totality, mid-totality (a warning) and end of totality are at their times |
| Schedule.PartBeforeEntry | SchedulePage.cpp:64-82 | the `double` accumulator of the first loop truncates to the planned time; the video setup is 32 s after the sixth picture |
| Schedule.PartAfterEntry | SchedulePage.cpp:97-107 | the accumulator of the second loop truncates to the planned time |
| Schedule.ReplacePageRecords | SchedulePage.cpp:53-54 | removing a page's records and adding a batch leaves other pages' records and exactly the batch |
| Schedule.ReplaceTwice | SchedulePage.cpp:53-54 | replacing a page's records twice by one batch is replacing them once |
| Schedule.RebuildIsIdempotent | SchedulePage.cpp:151-171 | showing the page twice for one totality doubles no alert |
| Network.FirstOctetDecides | NetworkPage.cpp:89-99 | loopback is 127/8 and multicast 224/4, decided by the first octet |
| Network.LexIrreflexive | NetworkPage.hpp:62-67 | no name orders before itself |
| Network.LexTransitive | NetworkPage.hpp:62-67 | the name order is transitive |
| Network.LexTotal | NetworkPage.hpp:62-67 | two different names are ordered one way |
| Network.AsMap | NetworkPage.hpp:93 | the set seen as a map has exactly its names as keys |
| Network.AsMapKeyed | NetworkPage.hpp:93 | each interface is filed under its own name |
| Network.NamesIndex | NetworkPage.hpp:93 | a name is in the set exactly when some interface has it |
| Network.AsMapAt | NetworkPage.hpp:93 | each interface of the set is found under its name |
| Network.ByNameUnique | NetworkPage.hpp:93 | two ordered sets with the same interfaces are equal |
| Network.Find | NetworkPage.cpp:112-122 | `find` gives the position of the name, or `end()` exactly when absent |
| Network.InsertByNameOrder | NetworkPage.cpp:123-127 | inserting a new name keeps the order |
| Network.InsertByNameMap | NetworkPage.cpp:123-127 | inserting adds exactly the one interface |
| Network.EraseAtOrder | NetworkPage.cpp:137-148 | erasing keeps the order |
| Network.EraseAtMap | NetworkPage.cpp:137-148 | erasing removes exactly the one name |
| Network.ReplaceAt | NetworkPage.cpp:112-122 | erase and emplace of the same name replaces that interface |
| Network.KeepByName | NetworkPage.cpp:137-148 | the removal loop keeps the order |
| Network.KeepMap | NetworkPage.cpp:137-148 | the removal loop keeps exactly the seen interfaces |
| Network.KeepCount | NetworkPage.cpp:137-148 | it erases one interface per unseen name |
| Network.WantedFirst | NetworkPage.cpp:89-110 | a name is wanted exactly when a qualifying entry has it, with the first such entry's address |
| Network.MergedKeys | NetworkPage.cpp:108-129 | after the first loop the names are the old and the wanted ones |
| Network.WantedUpTo | NetworkPage.cpp:89-110 | the names and addresses the first `k` entries of the address list ask for |
| Network.Wanted | NetworkPage.cpp:89-110 | the names and addresses the whole address list asks for |
| Network.Reconciled | NetworkPage.cpp:81-150 | the set `fillnetifs` leaves, keyed by name |
| Network.ReconciledShape | NetworkPage.cpp:81-150 | afterwards exactly the wanted names, with the wanted addresses; unchanged interfaces are the old objects |
| Network.UpdatesZero | NetworkPage.cpp:81-150 | `fillnetifs` returns 0 exactly when the set is unchanged |
| Network.MergedStep | NetworkPage.cpp:108-129 | one more qualifying entry reconciles its name and counts it if new or changed |
| Network.BitOrZero | NetworkPage.cpp:60-79 | or-ing the count into `change` is zero only when both are |
| Network.NetworkSelectWhen | NetworkPage.cpp:60-79 | the user can always choose it; automatically it needs an interface, a good fix and the eclipse not yet begun |
| Network.NetworkSelect | NetworkPage.cpp:60-79 | the network page's `select` |
| Network.ShowChecked | NetworkPage.cpp:152-178 | with no interface the page always reads "No networks" |
| Network.ShowAsWritten | NetworkPage.cpp:152-178 | `show` as written: on a change it goes to the first interface without testing that one exists |
| Network.ShowAsWrittenPastTheEnd | NetworkPage.cpp:155-168 | as written, a change with an empty set reads `end()`; checked, it reads "No networks" |
| Network.ShowCheckedCycles | NetworkPage.cpp:152-178 | the checked `show` only displays an interface that exists and steps through them in order |
| Network.InterfaceLines | NetworkPage.cpp:167-177 | name, wireless network if any, and address, on the right rows |
| Network.DottedQuad | NetworkPage.cpp:176 | an IPv4 address as four decimal octets separated by dots |
| Network.PlaceEntry | NetworkPage.cpp:108-129 | one entry's find/erase/emplace keeps the order and reconciles that name |
| Network.MergeEntry | NetworkPage.cpp:89-129 | one step of the first loop keeps its invariant |
| Network.MergeEntries | NetworkPage.cpp:89-129 | the first loop leaves the merged set, the seen names and the count of new or changed names |
| Network.DropUnseen | NetworkPage.cpp:137-148 | the second loop keeps exactly the seen interfaces and counts the rest |
| Network.FillResult | NetworkPage.cpp:81-150 | `fillnetifs` leaves the reconciled set and returns its update count, zero exactly when unchanged |
| Network.NetworkPage.constructor | NetworkPage.hpp:102-105 | empty set, no change pending |
| Network.NetworkPage.FillNetifs | NetworkPage.cpp:81-150 | the set becomes the reconciled one; the count is zero exactly when nothing changed |
| Network.NetworkPage.Select | NetworkPage.cpp:60-79 | the set is refilled, the count is or-ed into `change`, and the decision follows |
| Network.NetworkPage.Show | NetworkPage.cpp:152-178 | with the emptiness test first: "No networks", or the lines of an interface that exists |
| Network.VanishedInterface | NetworkPage.cpp:155-168 | an interface that vanishes after being shown makes `show` as written read `end()` |
| RunUi.Answer | RunUi.cpp:61-91 | an empty slot never accepts; GPS always does; the menu never does automatically |
| RunUi.PageSelect | RunUi.cpp:41-56 | the `select` of the page at each index, as the constructor lays the pages out |
| RunUi.VisitedModular | RunUi.cpp:61-91 | stepping `k` pages forward or back is addition or subtraction modulo the eleven slots of the ring |
| RunUi.Distance | RunUi.cpp:61-91 | from any page every page is reached within one cycle |
| RunUi.DistanceUnique | RunUi.cpp:61-91 | steps of one to a whole cycle reach distinct pages |
| RunUi.FirstAcceptingUnique | RunUi.cpp:61-91 | the search for the next accepting page has one answer |
| RunUi.CurrentPageChosen | RunUi.cpp:61-91 | when every other page refuses, the search returns to the current page |
| RunUi.AutoNeverMenu | RunUi.cpp:61-91 | automatic cycling never lands on the menu |
| RunUi.SwitchAfterChange | RunUi.cpp:101-207 | the menu never switches away by itself; a user's choice unpinned waits five page times; otherwise the switch time stays |
| RunUi.RunUi.constructor | RunUi.cpp:41-58 | every page built, the clock shown first, the first switch one page time away |
| RunUi.RunUi.AdvancePageTime | RunUi.cpp:93-99 | unless pinned, the next switch is five page times away |
| RunUi.RunUi.ChangePage | RunUi.cpp:101-207 | the page changes and the switch time follows the rule above |
| RunUi.RunUi.IncPage | RunUi.cpp:61-75 | the next accepting page forward, never further than the always-accepting GPS page |
| RunUi.RunUi.DecPage | RunUi.cpp:77-91 | the next accepting page backward, never further than the GPS page |
| RunUi.SeekUp | RunUi.cpp:64-74 | the search loop of `incPage` stops at the first slot forward whose page accepts, never past the GPS page |
| RunUi.SeekDown | RunUi.cpp:80-90 | the search loop of `decPage` stops at the first slot backward whose page accepts, never past the GPS page |
| RunUi.RunUi.PinPage | RunUi.cpp:209-223 | a press toggles pinning; pinned never switches, unpinned switches one page time later |
| RunUi.RunUi.Dial | RunUi.cpp:340-349 | forward for a positive value, backward for a negative one, as the user |
| RunUi.RunUi.Tick | RunUi.cpp:363-393 | a page handed over by the scheduler is shown; otherwise the automatic cycling moves on once the switch time has passed |
| RunUi.FirstPress | RunUi.cpp:315-349 | with every page present, a press moves from the clock to the GPS page |
| ImagePath.Examined | main.cpp:88-93 | the characters examined are the path less its last |
| ImagePath.Through | main.cpp:88-101 | the prefix ending with the `k`-th `/` from the end |
| ImagePath.ThroughCount | main.cpp:88-101 | exactly `k-1` slashes follow that prefix |
| ImagePath.ThroughUnique | main.cpp:88-101 | that prefix is the only one ending in `/` with `k-1` slashes after it |
| ImagePath.ThroughThrough | main.cpp:88-101 | going three levels up and then one more is going four levels up |
| ImagePath.PopToSlash | main.cpp:88-93 | as written, the loop stops just after the required `/` |
| ImagePath.ImagePathsAsWritten | main.cpp:86-106 | where defined, the loops give the outcome of the derivation as written: the own images three levels above the program and the library's four |
| ImagePath.RelativeInvocationUndefined | main.cpp:88-101 | started as `./eclipse`, the loops as written read `back()` of an emptied string |
| ImagePath.PopAsWrittenSpec | main.cpp:88-93 | a pop loop as written ends just after the required `/` when enough are examined, and otherwise reads `back()` of an empty string |
| ImagePath.PopAsWritten | main.cpp:88-93 | one pop loop as written, for every input, including the read of `back()` of an empty string |
| ImagePath.DerivationAsWritten | main.cpp:86-106 | the two loops and the `../` fallback as written, for every input |
| ImagePath.DerivationAsWrittenExact | main.cpp:86-106 | the derivation as written is undefined exactly when the path has fewer than four `/` before its last character, and otherwise gives the directories three and four levels up |
| ImagePath.DerivationFourUp | main.cpp:88-101 | with at least four `/` before the last character, both loops as written stop at the third and the fourth `/` from the end |
| ImagePath.DerivationTooShallow | main.cpp:88-101 | with fewer than four `/` before the last character, one of the loops as written reads `back()` of an empty string |
| ImagePath.OwnBase | main.cpp:88-93 | with three levels available the base is a proper prefix of the path |
| ImagePath.LibraryBase | main.cpp:96-104 | the library's base is never empty |
| ImagePath.LibraryAboveOwn | main.cpp:86-106 | the library's directory is the parent of the program's |
| ImagePath.PopToSlashChecked | main.cpp:88-101 | with the emptiness test the loop stops at the `/` or at an empty string |
| ImagePath.ImagePathsChecked | main.cpp:86-106 | defined for every `argv[0]`: three and four levels up, or the current directory and `../` |

## Left out

- Hardware and I/O are not modelled: the display, fonts and rendering, the
  input devices, GPIO and the buzzer's electrical output, the GPS and sensor
  drivers, and the files and directories read.
- Threads, locks, the condition variable and the `quit` flag are left out.
  The worker's loop is modelled one iteration at a time
  (`Attention.Scheduler.Step`), and its sleeps and waits are reported as
  results.
- Every reading of the clock is a parameter of the operation that takes it.
- The sun position is a function parameter, and floating point is modelled
  as exact `real` arithmetic. The sun's azimuth page only records which
  positions it asks for.
- GDAL is not modelled.
  - A dataset is a map from file name to layers, and a layer is a sequence
    of shapes.
  - `GetNextFeature` after `GetFeature(start)` is taken to visit `start+1`
    onward.
  - A shape's FID is taken to be its index.
  - Every shape is taken to have a geometry. The source skips one without
    it, neither hit nor miss.
  - `abs(lon - flon)` is the floating absolute value.
- The network interface list (`getifaddrs`) is a parameter, and so is the
  wireless network name query (`wlQuery`, `essidOf`).
- During `RunUi`'s page search, the network page refills its set inside
  `select`. The model abstracts that side effect to whether the set is
  non-empty (`netUp`).
- The sun pages' slots are taken to be 4 and 5 of the page enumeration.
  RunUi.cpp:49-50 names them with identifiers that are not in RunUi.hpp's
  enumeration.
- Fields that the source leaves uninitialised start at 0 in the model:
  - `DisplayInfo`'s `now`, `errtime`, `notetime`, `errcnt`, `locerr` and
    `sats`;
  - `Umbra`'s `startT` and `endT`;
  - `SunElPage`'s kept values;
  - both sun pages' counters;
  - `NetworkPage`'s `last`.
- `poslon` is never assigned by the source and is fixed at 0.0.
- The menu filling in `makeEvents` and `update` (SchedulePage.cpp:112-148,
  182-206) is not modelled, and neither are the menu page's keys.
- RunUi.RunUi.ChangePage: models only the page index and the switch time,
  not the hiding and showing of the pages or the rewiring of their inputs.
  Inside `changePage`, `advancePageTime` takes its own clock sample; the
  model uses the caller's. The UI loop replaces that value
  (RunUi.cpp:380-386) only for a page handed over by the scheduler while
  unpinned. For the dial and button paths (RunUi.cpp:318-349) the source
  keeps `advancePageTime`'s own sample, which can be later than the
  caller's clock value that the model uses.
- RunUi.RunUi.Tick: requires the clock plus 64 ms to fit in a signed 64-bit
  count of nanoseconds, and a page handed over to be a page of the ring. The
  64-bit overflow of the time additions is not modelled anywhere else
  either.
- Functions.Split: integer widths are unbounded; the source's `int` cannot
  overflow for the times it handles.
- Network.NetworkPage.Show: models `show` with the emptiness test first, as
  in the finding below. `Network.ShowAsWritten` models the code as written.
- ImagePath.ImagePathsAsWritten: requires the path to have enough `/` to be
  defined (the finding below). `ImagePath.DerivationAsWritten` models every
  path as written, with an `Undefined` outcome, and
  `ImagePath.ImagePathsChecked` is the corrected derivation.
- `wasGood` and `isTesting` are read accessors with no contract beyond
  their fields.
- `DisplayStuff`'s time-zone and battery helpers are not modelled.

## Findings

| source | as written | input that shows it | evidently intended | confidence | as-written member | corrected member |
|---|---|---|---|---|---|---|
| NetworkPage.cpp:155-168 | When `change` is set, `last = netifs.begin()` is dereferenced without testing that the set is non-empty | The page shows the only interface, the interface goes away, and `select` then empties the set and sets `change`; the next `show` dereferences `end()` | An empty set reads "No networks" whatever `change` holds | not executed | Network.VanishedInterface | Network.ShowChecked |
| main.cpp:88-101 | `back()` is read after each `pop_back()` without testing whether the string is still non-empty | `argv[0]` = `./eclipse`: popping reaches `.`, then empties the string, and `back()` of the empty string is undefined | Stop at an empty string. The `../` fallback at main.cpp:102-104 shows an empty result was meant to be handled | not executed; many library builds read a `'\0'` there, and then behave as the corrected member | ImagePath.RelativeInvocationUndefined | ImagePath.ImagePathsChecked |
