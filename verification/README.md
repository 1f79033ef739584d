# Job World trip planner — a verified model of its core

The planner helps a family plan a visit to a children's job-experience venue.
The venue has six halls, each with rooms. A room offers an experience of a fixed
length (15 to 40 minutes) at fixed start times, in a morning session
(09:30–13:30) and an afternoon session (14:30–18:30).

This project models four parts of the planner and proves properties of each:

- **Time helpers.** Parsing `H:MM`/`HH:MM` text into minutes since midnight, formatting minutes back, the
  Korean 12-hour display ("오전"/"오후"), the session a time falls in, and the remaining-time text
  ("H시간 MM분" / "M분").
- **Schedule lookup.** The slot list of a room's duration in minutes, a room's next slot at or after
  a time, the rooms still available ordered by their next slot, and rooms grouped by duration.
- **The course generator.** It takes the rooms already filtered to a hall and an age. It stable-sorts them
  (preferred rooms first, then popular rooms). It then builds an itinerary greedily, for at most
  20 rounds and while more than 15 minutes remain before the session end. In each round it first inserts a
  break when the number of experiences is a positive multiple of the break interval. It then takes the
  unused room whose first fitting slot leaves the least waiting time, with ties going to the room that
  sorts first. Totals are recomputed from the items.
- **The settings store.** The initial settings, toggling a preferred room, switching hall, clearing
  preferences and resetting the course settings, as pure transitions on a state value.

Modules:

- `Types`: the records and constants (`src/data/types.ts`, `src/data/constants.ts`).
- `Time`: the time helpers (`src/utils/time.ts`).
- `Schedule`: the schedule lookup (`src/utils/schedule.ts`).
- `CourseGenerator`, `CourseProperties` and `CourseTheorems`: all three model `src/utils/courseGenerator.ts`. The first holds the
  generator itself, the second its loop invariant, the third properties of every generated course.
- `AppStore`: the settings store (`src/store/appStore.ts`).
- `Digits`, `Sorting` and `Wrappers`: helpers with no source file of their own, namely decimal text, a stable insertion sort
  with its stability proof, and `Option`.

The schedule table (`src/data/schedules`) is not part of this model. It appears as an input
`Registry`, a map from duration to the two sessions' start-time lists; a duration may be missing.

Points of the generator's behaviour that the model keeps exactly as the code has them:

- The loop stops when the last end is not strictly before `sessionEnd - 15` (`<`, not `<=`).
- There is no look-ahead before a break: a break is added even if no experience fits after it.
- A trailing break is kept.
- Preference and popularity act only through the pre-sort. There is no score bonus; the pick is by least wait alone.
- A picked slot whose text is empty ends generation, as `!bestStartTime` does.

## Model

| member | source | states |
|---|---|---|
| Time.TimeToMinutes | src/utils/time.ts:4-17 | the result is in 0..1439; text the pattern rejects reads as 0; accepted text gives hour = result / 60 and minute = result % 60 |
| Time.MinutesToTime | src/utils/time.ts:23-33 | the output is always five-character `HH:MM` text the parser accepts, and it parses back to the input clamped to 0..1439 |
| Time.MinutesRoundTrip | src/utils/time.ts:23-33 | formatting any minute of the day and parsing it back gives that minute |
| Time.FormatIsStable | src/utils/time.ts:23-33 | any formatted text parses to the clamped minute, and formatting that minute again gives the same text |
| Time.TextRoundTrip | src/utils/time.ts:10-33 | parsing accepted two-digit-hour text and formatting the value gives the same text |
| Time.ShortTextRoundTrip | src/utils/time.ts:10-33 | accepted one-digit-hour text formats back with a leading zero |
| Time.AcceptedIsFormatted | src/utils/time.ts:4 | a string is accepted exactly when it is the formatter's output for its own value, with or without the hour's leading zero |
| Time.SessionStartMinutes | src/data/constants.ts:2-5 | session 1 starts at minute 570 (09:30) and session 2 at 870 (14:30) |
| Time.SessionEndMinutes | src/data/constants.ts:2-5 | session 1 ends at minute 810 (13:30) and session 2 at 1110 (18:30) |
| Time.FormatTimeDisplay | src/utils/time.ts:39-58 | morning label below noon, afternoon label from noon on; the clock part is accepted time text with hour 1..12 and the same time modulo 12 hours; hours 1..12 show the input unchanged; hour 0 shows as the padded clock "12:MM"; hours 13..23 show as the padded clock twelve hours earlier, so the display is eight characters |
| Time.TwelveHourClock | src/utils/time.ts:44-57 | the clock part on its own: accepted time text with hour 1..12, equal to the input modulo 12 hours, the input itself for hours 1..12, and the padded "HH:MM" text of the shifted minute otherwise |
| Time.MidnightClock | src/utils/time.ts:45-47 | a time in hour 0 shows as the padded clock of twelve o'clock and the same minute |
| Time.AfternoonClock | src/utils/time.ts:54-57 | a time in hours 13..23 shows as the padded clock twelve hours earlier |
| Time.DisplayOfMalformed | src/utils/time.ts:39-47 | text the parser rejects is displayed as "오전 12:00" |
| Time.GetCurrentSession | src/utils/time.ts:65-72 | session 1 exactly on [570, 810), session 2 exactly on [870, 1110), none otherwise |
| Time.HoursText | src/utils/time.ts:80 | the text is the hours in canonical decimal (no leading zero), then "시간 ", then exactly two minute digits, then "분"; it reads back as H*60+M |
| Time.HoursFormIsUnique | src/utils/time.ts:80 | exactly one text has that shape for given hours and minutes |
| Time.MinutesText | src/utils/time.ts:77-81 | the text is the count in canonical decimal followed by "분"; it reads back as M |
| Time.MinutesFormIsUnique | src/utils/time.ts:77-81 | exactly one text has that shape for a given count |
| Time.GetRemainingTime | src/utils/time.ts:74-82 | "0분" once the session is over; the hours shape with the whole hours and the remaining minutes from one hour up; the minutes shape below one hour; in every case it reads back as the minutes left until the session ends |
| Digits.DecimalTextRoundTrip | src/utils/time.ts:80-81 | the decimal text of any natural number parses back to it |
| Digits.Pad2RoundTrip | src/utils/time.ts:80 | the two-digit zero-padded text of a number below 100 parses back to it |
| Digits.CanonicalIsDecimalText | src/utils/time.ts:80-81 | digit text with no leading zero is the decimal text of its value, so a number has one canonical text |
| Digits.TwoDigitsArePad2 | src/utils/time.ts:80 | any two digits are the padded text of their value |
| Schedule.GetScheduleMinutes | src/utils/schedule.ts:8-19 | no schedule for the duration gives the empty list; otherwise the list holds each slot's minute value in order |
| Schedule.FirstAtOrAfter | src/utils/schedule.ts:29-32 | the index found is the first whose minute is at or after the bound; none means every minute is earlier |
| Schedule.ScheduleMinutesSplit | src/utils/schedule.ts:8-32 | the minute list ascends exactly when the slot texts run forward in time; then the first slot at or after a minute splits the list into earlier slots and slots not earlier |
| Schedule.AscendingSplits | src/utils/schedule.ts:29-32 | on an ascending minute list the first entry at or after the bound starts exactly the entries not below it; none found means every entry is below |
| Schedule.GetNextAvailableTime | src/utils/schedule.ts:21-33 | none when the duration has no schedule or every slot is earlier; otherwise the slot of least index not earlier than the current time |
| Schedule.GetAvailableRooms | src/utils/schedule.ts:35-55 | only input rooms, each with its next slot in text and minutes, at or after the current time; every room that has a next slot is present; ascending by slot minute, rooms with equal minutes in input order |
| Schedule.AnnotateKeepsOrder | src/utils/schedule.ts:38-53 | annotating a concatenation annotates each part and keeps them in order, so rooms are annotated one by one in input order before the sort |
| Schedule.AnnotateSingleton | src/utils/schedule.ts:38-53 | one room is kept, with its annotation, exactly when it has a next slot, and dropped otherwise |
| Schedule.GroupInOrderPartitions | src/utils/schedule.ts:58-63 | the groups built by the loop have distinct durations, each holds exactly the rooms of its duration in input order, and the group sizes add up to the number of rooms |
| Schedule.GetRoomsByDuration | src/utils/schedule.ts:57-65 | durations strictly ascending; each group is non-empty and is the rooms of its duration in input order; every room's duration has a group; the sizes add up to the number of rooms |
| CourseGenerator.CompareRoomsIsRankOrder | src/utils/courseGenerator.ts:23-30 | the comparator is negative, zero or positive exactly as the first room's rank (preferred, then popular) is below, equal to or above the second's |
| CourseGenerator.SortRooms | src/utils/courseGenerator.ts:23-30 | a permutation of the rooms with every preferred room first, and within equal preference every popular room first |
| CourseGenerator.SortRoomsIsStable | src/utils/courseGenerator.ts:23-30 | rooms of equal rank keep their input order |
| CourseGenerator.ContextOf | src/utils/courseGenerator.ts:16-30 | the run keeps the options' session, break interval and break length; the session end is minute 810 or 1110; the start is the current time's minute; the candidate list is the rooms pre-sorted by preference and popularity |
| CourseGenerator.FirstFit | src/utils/courseGenerator.ts:55-67 | the slot found is the first that starts no earlier than the last end and finishes by the session end; none means no slot fits |
| CourseGenerator.Offer | src/utils/courseGenerator.ts:51-67 | an offered slot starts no earlier than the last end, ends by the session end, and its minute is its text's value |
| CourseGenerator.OfferIsFirstFit | src/utils/courseGenerator.ts:51-67 | the offered slot is the first in the room's list that fits, every earlier one failing; there is no offer exactly when the duration has no schedule or no slot fits |
| CourseGenerator.SelectIsGreedy | src/utils/courseGenerator.ts:45-68 | the pick is an unused sorted room offering the least wait, strictly less than every earlier candidate's; none exactly when no unused room offers a slot |
| CourseGenerator.GenerateCourse | src/utils/courseGenerator.ts:89-91 | the course id is the decimal text of the timestamp and the creation time is that timestamp |
| CourseProperties.GeneratedItemsOk | src/utils/courseGenerator.ts:32-86 | every generated item satisfies the loop invariant; at most 20 experiences and 40 items |
| CourseTheorems.CourseIsChronological | src/utils/courseGenerator.ts:32-86 | every item lies between the current time and the session end, and no item starts before an earlier one ends |
| CourseTheorems.CourseRoomsDistinct | src/utils/courseGenerator.ts:50-83 | each experience carries its room's id, and no room appears twice |
| CourseTheorems.CourseBreaks | src/utils/courseGenerator.ts:33-43 | a break follows an experience, starts at its end and lasts the break length, and comes exactly when the experience count is a positive multiple of the interval; a non-positive interval gives no break |
| CourseTheorems.CourseIsGreedy | src/utils/courseGenerator.ts:45-84 | each experience's room is one of the given rooms, was unused and offers the item's start; no unused room offers an earlier start; a room offering the same start sorts no earlier |
| CourseTheorems.CourseTotals | src/utils/courseGenerator.ts:88-98 | experiences plus breaks make up all items (at most 20 and 40); total duration is the rooms' minutes plus one break length per break; total joy is the experienced rooms' joy |
| CourseTheorems.CourseEmptyIff | src/utils/courseGenerator.ts:32-70 | the course is empty exactly when at most 15 minutes remain at the start, or the first pick finds no room or an empty slot text |
| CourseTheorems.NoSlotNoCourse | src/utils/courseGenerator.ts:45-70 | when no room offers a slot from the current time, the course is empty and every total is zero |
| CourseTheorems.LoopEnd | src/utils/courseGenerator.ts:32 | a run of the loop ends in a reachable state: either the iteration bound or the loop condition stopped it, or an iteration that had run broke out of it |
| CourseTheorems.IterateContinues | src/utils/courseGenerator.ts:33-86 | an iteration that goes on ends on the experience it just appended and has placed exactly one more experience |
| CourseTheorems.IterateStops | src/utils/courseGenerator.ts:33-70 | an iteration breaks out only when a due break would reach the session end, or when no room or only an empty slot text is found, directly or after the break it just added |
| CourseTheorems.CourseStopsOnlyWhenStuck | src/utils/courseGenerator.ts:32-70 | the course stops after 20 experiences, when at most 15 minutes remain, when a due break would reach the session end, or when no room can be picked; a course ending in a break stopped because nothing could be picked after it |
| CourseTheorems.FinalRoundStops | src/utils/courseGenerator.ts:33-70 | the round that leaves the loop either stops before a due break that would reach the session end, or finds no pick; if it added a break first, the course ends in that break |
| CourseTheorems.CourseTimesAreClockText | src/utils/courseGenerator.ts:36-79 | for every input, each item's end time, and each break's start time, is the zero-padded `HH:MM` text of its own minute, as `minutesToTime` writes it |
| CourseTheorems.IterateKeepsClock | src/utils/courseGenerator.ts:36-79 | a round appends only items whose formatted times are the padded text of their minutes |
| AppStore.InitialState | src/store/appStore.ts:31-39 | the store starts in the children's hall, session 1, age 6, no preferences, a break of 10 minutes every 2 experiences and no course |
| AppStore.TogglePreferredRoom | src/store/appStore.ts:45-49 | the id becomes listed exactly when it was not; an unlisted id is appended; a listed id loses every occurrence and the list is filtered in order; other ids keep their counts; nothing else changes |
| AppStore.WithoutFilters | src/store/appStore.ts:47 | filtering a concatenation is the concatenation of the filtered parts, so the remaining ids keep their relative order |
| AppStore.WithoutSingleton | src/store/appStore.ts:47 | on a single id the filter drops it exactly when it is the toggled id |
| AppStore.ToggleTwiceRestores | src/store/appStore.ts:45-49 | toggling an unlisted room twice gives the store back |
| AppStore.ToggleKeepsNoDuplicates | src/store/appStore.ts:45-49 | toggling keeps a duplicate-free preference list duplicate-free |
| AppStore.SetSelectedHall | src/store/appStore.ts:42 | the hall switches, the preferences empty, nothing else changes |
| AppStore.ClearPreferredRooms | src/store/appStore.ts:50 | the preferences empty and nothing else changes |
| AppStore.HallSwitchClears | src/store/appStore.ts:42-50 | after a hall switch there is nothing left to clear, and switching to the same hall again changes nothing |
| AppStore.ResetCourseSettings | src/store/appStore.ts:54-59 | the result is the initial store except that time, hall, session and age keep their values |
| AppStore.ResetIsIdempotent | src/store/appStore.ts:31-59 | resetting twice equals resetting once, and a fresh store is already reset |

## Left out

- User interface pages and components: they only display values and call the operations above.
- `getCurrentTime` and `getInitialTime` read the wall clock. The clock's text is the `now` argument of `AppStore.InitialState`.
- `Date.now()` and `new Date()` in `generateCourse` are the `stamp` argument of `CourseGenerator.GenerateCourse`.
- The `console.warn` calls in `timeToMinutes` and `minutesToTime` are output only and are left out.
- `minutesToTime` has a branch for non-finite input (`NaN`, `Infinity`) and a floor of fractional minutes. Minutes are integers here, so neither arises.
- The minute cache of `getScheduleMinutes` is left out. It is a pure memo: every call returns the same list.
- The schedule table and the room catalog (`src/data/schedules`, `src/data/halls`) are not part of this model. The table is the `Registry` input and the rooms are an input sequence.
- The caller's filter of rooms by hall and child age, in the generator page, is not part of this model.
- The plain setters `setCurrentTime`, `setSelectedSession`, `setChildAge`, `setBreakInterval`, `setBreakDuration` and `setCurrentCourse` each assign one field. The store library's subscription machinery is left out too.
- JavaScript `Number` parsing is modelled only on the digit strings the time pattern accepts.
- CourseTheorems.CourseIsChronological: assumes a break length of zero or more; a negative length, which the settings page never offers, makes a break end before it starts.
- CourseTheorems.CourseRoomsDistinct: assumes a break length of zero or more, as the invariant it rests on does.
- CourseTheorems.CourseBreaks: assumes a break length of zero or more.
- CourseTheorems.CourseIsGreedy: assumes a break length of zero or more.
- CourseTheorems.CourseTotals: assumes a break length of zero or more.
- CourseProperties.GeneratedItemsOk: assumes a break length of zero or more.
