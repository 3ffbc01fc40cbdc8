# Procrastination planner: session logic

This project models the state behind the app's single page:
- a task store;
- a chat with an assistant that turns phrases such as "надо …" into tasks;
- an energy gauge that task events credit up to 100, and its status label;
- the derived views: today's tasks, progress percentages and the upcoming list;
- the calendar page's month grid and month navigation.

The model is in Dafny and is proved correct against contracts stated in the app's own terms.

Layout:
- `text.dfy`:
  - `Options`: an optional value.
  - `Text`: the ECMAScript whitespace set used by `trim` and `\s`, the line terminators, `Trim`.
- `dates.dfy` (`Dates`):
  - dates are (year, 0-based month, day) triples;
  - proleptic Gregorian month lengths;
  - a day count since 0001-01-01 and the weekday derived from it (0 = Sunday);
  - the next day and chronological order.
- `energy.dfy` (`Energy`): the capped credit `min(100, level + k)`, the three credit amounts and the status bands.
- `intent.dfy` (`Intent`): a matcher for the chat's intent pattern `(?:сделать|…|надо)\s+(.+?)(?:\s+в\s+(\d{1,2}:\d{2}))?` with flag `i`.
  - It is stated against a declarative description of a match and proved to find the leftmost one.
  - It takes the alternatives in order, backtracks the greedy `\s+`, and the lazy group is followed by an optional one.
- `tasks.dfy`:
  - `Seqs`: `filter` and subsequences.
  - `Tasks`: the task record, the toggle `map`, the delete `filter`.
- `views.dfy` (`Views`):
  - the per-day filter and counts;
  - the rounded percentage;
  - the upcoming list (a stable sort by date, then the first five).
- `calendar.dfy` (`Calendar`): the month grid (a method with two loops, as in the source) and month navigation.
- `chat.dfy` (`Chat`): messages, the greeting and the eight canned replies.
- `session.dfy` (`AppSession`): the class `Session`.
  - Its fields are the component's state: tasks, messages, input, energy, pulse, the `timeoutsRef` id set, and the browser's queue of live timers.
  - Its methods are the handlers. A chat timer running is the event `Fire`; the random reply index and clock readings are parameters.
  - Four scenario methods drive a session through whole exchanges.

Where the code's evident intent and its behaviour part ways, the model follows the code:
- **Chat intents.** The chat box's placeholder (`App.jsx:439`) suggests "нужно сделать дз по пятерке в 15:00" as an input, and the `|| inputMessage` fallback at line 94 suggests that group 1 was meant to hold the whole description. But the lazy `(.+?)` is followed only by an optional group and has no end anchor, so group 1 is always exactly one character.
  - The placeholder's own example creates the task "с" with no time (`Intent.MatchOfPlaceholder`, `Intent.MatchAfterNuzhnoS`).
  - The fallback is dead (`Intent.MatchShape`).
- **Task ids.** Ids come from `Date.now()` (line 43), so two tasks created within the same millisecond share one. Toggle and delete act on every task that carries the id.
- **Month navigation.** The page moves by `setMonth` on the date it holds, which keeps that date's day of the month. The date starts as today, and after the first spill it holds the spilled day (1st to 3rd). The shown month is the intended one exactly when the target month has that day (`Calendar.NavigateMonthAsWrittenAgrees`). Otherwise the day spills into the month after the target (`Calendar.NavigateMonthAsWrittenSpills`):
  - forward from the 29th to 31st of January (30th and 31st in a leap year), or the 31st of March, May, August or October, the page jumps over the target month and shows the one after it;
  - back from the 29th to 31st of March (30th and 31st in a leap year), or the 31st of May, July, October or December, the page stays on the month it shows and lands on its 1st to 3rd (`Calendar.NavigateMonthBackStays`: 31 March 2025 gives 3 March, 31 May 2025 gives 1 May).
  See Findings.
- **Calendar grid.** The grid's blank cells count from Sunday (`getDay()`), while the header labels start on Monday. This is reproduced as written.

## Model

The source's functions map to the Dafny functions the lemmas below speak about:
- the regular expression at line 92 is `Intent.Match`;
- `deleteTask`'s filter (line 60) is `Tasks.Without`;
- `todayTasks` (line 118) is `Views.OnDate`;
- the upcoming list (lines 845-848) is `Views.Upcoming`;
- `getDay()` (line 692) is `Dates.Weekday`.

| member | source | states |
|---|---|---|
| Dates.DaysInMonth | frontend/src/App/App.jsx:690-691 | The last day of a month is 28..31, and is 29 exactly for February of a Gregorian leap year and 28 exactly for February of other years |
| Dates.DayNumberOfNextDay | frontend/src/App/App.jsx:692 | Consecutive days have consecutive day numbers, and the weekday advances by one modulo 7 |
| Dates.DayNumberOrder | frontend/src/App/App.jsx:847 | Comparing two dates by day number (the subtraction comparator) is exactly chronological order of (year, month, day), and equal numbers mean equal dates |
| Dates.WeekdayExamples | frontend/src/App/App.jsx:692 | 1 January 1970 is a Thursday (4) and 1 March 2024 a Friday (5), as `getDay()` reports |
| Text.TrimEmptyIffBlank | frontend/src/App/App.jsx:64 | `trim()` yields the empty string exactly when every character is ECMAScript whitespace |
| Energy.Credit | frontend/src/App/App.jsx:55 | The credited level is the smaller of 100 and the sum; it never exceeds either and never falls below a level already within the cap |
| Energy.ApplyStaysInRange | frontend/src/App/App.jsx:20-97 | From a level in [0, 100], any sequence of toggle (+10), manual add (+3) and chat add (+5) credits keeps the gauge in range and never lowers it, ending at min(100, start + total) |
| Energy.StatusOf | frontend/src/App/App.jsx:129-135 | The first threshold reached decides the label: >=90, [70,90), [50,70), [30,50) and <30 each give exactly one status |
| Energy.StatusMonotone | frontend/src/App/App.jsx:129-135 | More energy never yields a lower status |
| Intent.SkipSpaces | frontend/src/App/App.jsx:92 | Greedy `\s+`: the run of whitespace from a position is consumed up to the first non-space or the end |
| Intent.TitleAt | frontend/src/App/App.jsx:92 | `\s+(.+?)` after a keyword: group 1 is one non-line-terminator after at least one space, at the last position the greedy run of spaces offers (every later position up to where the spaces end is a line terminator) |
| Intent.TitleAtNone | frontend/src/App/App.jsx:92 | when `\s+(.+?)` finds nothing after a keyword, no run of spaces starting right after it leads to a non-line-terminator: every such character has a non-space before it |
| Intent.ClockAtSpec | frontend/src/App/App.jsx:92 | `\d{1,2}:\d{2}` at a position: the clock text found stands there, and any clock text standing there is the one found, so none is found only when there is none |
| Intent.TimeAtSpec | frontend/src/App/App.jsx:92 | The optional group `\s+в\s+(\d{1,2}:\d{2})` yields group 2 exactly when spaces, `в` in either case, spaces and a clock text follow, and then yields that one clock text |
| Intent.AltAt | frontend/src/App/App.jsx:92 | Trying the alternatives in order at one position: a result is a real match at that position with a keyword from the current one on; no result only when no keyword from there on admits a match |
| Intent.AltAtFirst | frontend/src/App/App.jsx:92 | The alternative taken is the first one that admits a match: no earlier keyword matches there with any character for group 1 |
| Intent.AltAtLast | frontend/src/App/App.jsx:92 | Group 1 sits where the backtracking `\s+` first offers a character: every later position up to the end of the space run is a line terminator |
| Intent.MatchFrom | frontend/src/App/App.jsx:92 | Scanning from a position, a reported match starts at or after it and is a real match |
| Intent.MatchFromIsLeftmost | frontend/src/App/App.jsx:92 | The scan reports the leftmost match; no match starts between the scan position and the reported start, or anywhere when it reports none |
| Intent.MatchIffKeywordThenText | frontend/src/App/App.jsx:92 | `match` succeeds exactly when a keyword (any case) is followed by whitespace and a non-line-terminator character somewhere in the text |
| Intent.MatchShape | frontend/src/App/App.jsx:92-95 | On a match, the title is exactly one character taken from the text, never a line terminator, so the `|| inputMessage` fallback cannot apply; the time, if present, is H:MM or HH:MM |
| Intent.ChosenUnique | frontend/src/App/App.jsx:92 | The declarative reading of the reported match (leftmost start, first alternative, group 1 at the last place `\s+` offers) admits at most one match |
| Intent.MatchIsChosen | frontend/src/App/App.jsx:92 | The match the scan reports is the one the declarative reading describes |
| Intent.MatchTitle | frontend/src/App/App.jsx:92-94 | Group 1 is the character at the dot of that match |
| Intent.MatchTime | frontend/src/App/App.jsx:92-95 | Group 2 is present exactly when the optional ` в H:MM` group can match right after group 1, and is then the one clock text it matches |
| Intent.MatchAfterNuzhnoS | frontend/src/App/App.jsx:92-95 | Any text opening with "нужно сд" yields title "с" and no time, whatever follows |
| Intent.MatchOfPlaceholder | frontend/src/App/App.jsx:439 | The chat box's example "нужно сделать дз по пятерке в 15:00" yields title "с" and no time |
| Intent.MatchOfReportAtThree | frontend/src/App/App.jsx:92-95 | "нужно сделать отчет в 15:00" yields title "с" and no time |
| Intent.MatchWithClock | frontend/src/App/App.jsx:92-95 | "надо x в 9:30" yields title "x" and time "9:30" |
| Intent.NoMatchInGreeting | frontend/src/App/App.jsx:92 | "привет" does not match, so no task is created |
| Seqs.Filter | frontend/src/App/App.jsx:60 | `filter` keeps exactly the elements that pass, is no longer than its input and takes nothing the input does not hold |
| Seqs.FilterIsSubsequence | frontend/src/App/App.jsx:60 | `filter` keeps the survivors in their original relative order |
| Tasks.NewTask | frontend/src/App/App.jsx:42-49 | A new task is incomplete, has priority "medium" and carries the given id, title, time and date |
| Tasks.Toggled | frontend/src/App/App.jsx:54 | Toggling keeps the length and order; every task with the id has its flag flipped and every other task is unchanged |
| Tasks.ToggleTwice | frontend/src/App/App.jsx:54 | Toggling the same id twice restores the store |
| Tasks.ToggleAbsent | frontend/src/App/App.jsx:54 | Toggling an id no task carries leaves the store unchanged |
| Tasks.ToggleKeepsAllButFlags | frontend/src/App/App.jsx:54 | Toggling changes nothing but completion flags |
| Tasks.DeleteSpec | frontend/src/App/App.jsx:60 | Deleting keeps exactly the tasks whose id differs, in their relative order; the kept and the removed together make up the old store |
| Tasks.DeleteAbsent | frontend/src/App/App.jsx:60 | Deleting an id no task carries leaves the store unchanged |
| Tasks.DeleteIdempotent | frontend/src/App/App.jsx:60 | Deleting the same id twice is deleting it once |
| Views.OnDateSpec | frontend/src/App/App.jsx:117-120 | Today's tasks are exactly the store's tasks dated that day, in store order, and the completed count never exceeds the total |
| Views.OnDateAfterAppend | frontend/src/App/App.jsx:118 | Adding a task extends a day's list by that task exactly when it is dated that day |
| Views.Percent | frontend/src/App/App.jsx:476 | The percentage is 100·completed/total rounded to the nearest integer, halves rounding up, as `Math.round` does |
| Views.PercentInRange | frontend/src/App/App.jsx:476 | With completed <= total the percentage lies in [0, 100], is 0 when nothing is done and 100 when everything is |
| Views.DayProgress | frontend/src/App/App.jsx:474-476 | The day's progress is shown exactly when the day has tasks, and is then the rounded share of completed tasks |
| Views.OverallProgress | frontend/src/App/App.jsx:552 | Overall progress is 0 for an empty store, otherwise the rounded share of completed tasks |
| Views.OverallProgressInRange | frontend/src/App/App.jsx:552 | Overall progress lies in [0, 100] |
| Views.Insert | frontend/src/App/App.jsx:847 | Inserting into the sorted prefix adds exactly the one task |
| Views.SortByDate | frontend/src/App/App.jsx:847 | The sort is a permutation of its input |
| Views.InsertSorted | frontend/src/App/App.jsx:847 | Inserting into a date-ordered list keeps it date-ordered |
| Views.InsertBelow | frontend/src/App/App.jsx:847 | Inserting a task no later than a bound into tasks no later than it keeps every task no later than it |
| Views.SortByDateSorted | frontend/src/App/App.jsx:847 | The sort's output is in non-decreasing date order |
| Views.SortByDateSameTasks | frontend/src/App/App.jsx:847 | The sort keeps the count and holds exactly the tasks of its input |
| Views.SortByDateStable | frontend/src/App/App.jsx:847 | The sort is stable: the tasks of any one day keep their store order |
| Views.UpcomingSpec | frontend/src/App/App.jsx:845-848 | The upcoming list has min(5, number of incomplete tasks) entries, all incomplete tasks of the store, in date order |
| Views.UpcomingAreEarliest | frontend/src/App/App.jsx:845-848 | No incomplete task left off the upcoming list is dated before a task on it |
| Views.UpcomingExample | frontend/src/App/App.jsx:845-848 | Incomplete tasks on 5 and 3 March and a completed one on 1 March give the list [3 March, 5 March] |
| Calendar.NavigateMonth | frontend/src/App/App.jsx:707-712 | Navigation lands on the normalised month whose index is `direction` away |
| Calendar.MonthIndexInjective | frontend/src/App/App.jsx:707-712 | A normalised (year, month) is determined by its month index |
| Calendar.NavigateMonthCarries | frontend/src/App/App.jsx:707-712 | December + 1 is January of the next year, January − 1 is December of the previous year, and other months step within the year |
| Calendar.NavigateMonthRoundTrip | frontend/src/App/App.jsx:707-712 | Going forward and back by the same count returns to the month shown |
| Calendar.SetMonth | frontend/src/App/App.jsx:710 | `setMonth` yields a real date |
| Calendar.SetMonthCountsDays | frontend/src/App/App.jsx:710 | `setMonth` lands on the 1st of the target month plus the kept day of the month less one; a day the target month lacks spills into the next month |
| Calendar.NavigateMonthAsWritten | frontend/src/App/App.jsx:707-712 | Navigation as written yields a real date |
| Calendar.NavigateMonthAsWrittenAgrees | frontend/src/App/App.jsx:707-712 | Navigation as written shows the intended month and keeps the day exactly when the target month has the page's day of the month |
| Calendar.NavigateMonthAsWrittenSpills | frontend/src/App/App.jsx:707-712 | When the target month lacks the page's day, navigation as written lands in the month after the target, on the overshoot; going back, that is the month already shown, on its 1st to 3rd |
| Calendar.NavigateMonthBackStays | frontend/src/App/App.jsx:707-712 | The back button on 31 March 2025 shows 3 March, and on 31 May 2025 shows 1 May |
| Calendar.NavigateMonthSkipsFebruary | frontend/src/App/App.jsx:707-712 | From 31 January 2025, +1 as written shows 3 March 2025, while the intended month is February 2025 |
| Calendar.WeekdayInMonth | frontend/src/App/App.jsx:692 | Day d of a month falls d − 1 weekdays after the 1st |
| Calendar.DaysInMonthGrid | frontend/src/App/App.jsx:686-705 | The grid has weekday(1st) blank cells and then days 1..N of the month in order, with length weekday(1st) + N; every day sits in the column of its own weekday (cell i has weekday i mod 7) |
| Chat.Reply | frontend/src/App/App.jsx:27-39 | The reply is one of the eight canned texts |
| Chat.RepliesNonEmpty | frontend/src/App/App.jsx:28-37 | There are eight replies and none is empty |
| Chat.Greeting | frontend/src/App/App.jsx:7-14 | The chat opens with assistant message 1, stamped five minutes before mounting |
| AppSession.Session.constructor | frontend/src/App/App.jsx:7-25 | A mounted app has no tasks, only the greeting, an empty input, energy 0, pulse 0 and no timers |
| AppSession.Session.SetInput | frontend/src/App/App.jsx:437 | Typing sets the input box and changes nothing else |
| AppSession.Session.AddTask | frontend/src/App/App.jsx:41-51 | One incomplete "medium" task with the given fields is appended; earlier tasks are untouched |
| AppSession.Session.SubmitNewTask | frontend/src/App/App.jsx:63-69 | A blank title changes nothing; otherwise exactly one task is appended, energy is credited 3 (capped) and the pulse goes up by one |
| AppSession.Session.ToggleTaskCompletion | frontend/src/App/App.jsx:53-57 | The store becomes the toggled store; energy is credited 10 (capped) and the pulse goes up even when no task has the id |
| AppSession.Session.DeleteTask | frontend/src/App/App.jsx:59-61 | The store becomes the store without the id; nothing else changes |
| AppSession.Session.HandleSendMessage | frontend/src/App/App.jsx:71-105 | Blank input changes nothing; otherwise one user message is appended, the input is cleared, and exactly one timer is added, capturing the text and the selected day |
| AppSession.Session.Fire | frontend/src/App/App.jsx:86-102 | A cleared or finished timer does nothing. Otherwise exactly one reply is appended. At most one task is added, only on a match: its title is the one-character group 1 and its time is group 2 or "", with +5 energy and a pulse. Only this timer leaves the set |
| AppSession.Session.Teardown | frontend/src/App/App.jsx:107-114 | Every pending timer is cleared so none will run, and the id set is emptied; nothing else changes |

## Left out

- Rendering, animations, page switching, the mobile menu, the add-task modal and its visibility flag (`setShowAddTask(false)` in `submitNewTask`): presentation only.
- Locale formatting of dates and times (`toLocaleDateString` / `toLocaleTimeString`): the date key `toDateString()` is represented by the (year, month, day) triple it is determined by.
- Time zones and time of day: dates are calendar triples. The UTC parsing of the modal's `<input type="date">` value at line 196, which can shift a task to the previous day west of UTC, is not modelled.
- `Math.random`, `Date.now()` and `new Date()` are parameters (`replyIndex`, `id`, `now`). The 1000 ms `setTimeout` delay is the explicit event `Fire`, and the browser hands out fresh timer ids (`HandleSendMessage` requires one not in use).
- React's batching of state updates: each handler's functional updates are applied in order, as one step.
- The `CalendarPage` component is redefined on every render of the app, so React remounts it on each re-render and resets its month to today. The page's month state (`currentMonth`) and this reset are not modelled; navigation is modelled as a function of the month shown.
- Views.Percent: the exact rounding of 100·c/t with halves up. The floating-point error of `c / t * 100` before `Math.round` is not modelled.
- Intent.Match: one character here is one Unicode code point. A JavaScript regular expression without the `u` flag works on UTF-16 code units, so a title starting with an astral character (an emoji) would be half a surrogate pair there.
- Intent.Canon: the `i` flag folds only a–z and U+0430–U+045F (а–я and ѐ–џ) to upper case. Every other case pair is left unfolded, including Greek, Latin-1 letters and the Cyrillic Extended-C forms U+1C80–U+1C88 (such as ᲀ for В).
- `submitNewTask`'s `priority` argument: the source ignores it (`addTask` always stores "medium"), and so does the model.
- `!title` on a missing (`undefined`) title: titles here are always strings.
- The weekday header labels (line 716) and other static text are not modelled.
- Calendar.DaysInMonthGrid: `new Date(year, month, day)` in `getDaysInMonth` maps years 0–99 to 1900–1999, while `setMonth` does not. So a page navigated back to year 50 would draw the grid of 1950 in the source, while the model draws year 50's. Years 0–99 are not modelled that way; they are about 23,000 back clicks from today.
- The backend (HTTP handlers, the language-model client, the ORM table, configuration loading) is not part of this model.

## Findings

| source | as written | input that shows it | evidently intended | confidence | as-written member | corrected member |
|---|---|---|---|---|---|---|
| frontend/src/App/App.jsx:707-712 | `navigateMonth` calls `setMonth(getMonth() + direction)` on a date that keeps today's day of the month; a day the target month lacks spills into the month after | The page opened on 31 January 2025, then the forward button: 31 February 2025 normalises to 3 March 2025, so February is skipped | Show the previous or next month: February 2025 | high; not executed | Calendar.NavigateMonthSkipsFebruary | Calendar.NavigateMonth |
