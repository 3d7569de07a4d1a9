# Daily calendar week planner — a Dafny model

The daily calendar is a desktop week planner. It shows the seven days of a
Monday-to-Sunday week as columns of 48 half-hour slots. Each day holds a list
of tasks and a small journal: three good things and three improvements. Tasks
are made and edited in a form (the task modal) and dragged on the timeline to a
new start or a new length. A date picker chooses the week.

This project models the planner's core in Dafny and proves properties of it:

- the record types and helpers of `src/types.ts`;
- the week view's handlers in `src/App.tsx`;
- the form's submit logic and option lists in `src/components/TaskModal.tsx`;
- the month arithmetic and mode changes of `src/components/DatePicker.tsx`.

Files and modules:

| file | module | what it holds |
|---|---|---|
| `wrappers.dfy` | `Wrappers` | `Option` |
| `text.dfy` | `Text` | the JavaScript string built-ins the planner uses: `toString()` of a non-negative integer, `padStart(2, '0')`, `trim()` |
| `calendar.dfy` | `Calendar` | the proleptic Gregorian calendar of the JavaScript `Date`, on integer day numbers (day 0 is Monday 0001-01-01; months are zero-based), and back from a day number to its date |
| `types.dfy` | `Types` | tasks, day records, migration, the half-hour grid, date keys, week start and week days |
| `task_modal.dfy` | `TaskModal` | the form's initial values, validation and duration clamp, and the start-time and duration lists |
| `planner.dfy` | `Planner` | the week map and one pure function per handler, with lemmas; the class `WeekPlanner` holds the state and applies those functions |
| `date_picker.dfy` | `DatePicker` | month stepping, days in a month, the first column of a month, the list of years, and the class `Picker` for the picker's state |

How the handlers are modelled:

- Each App handler is a function from the old week map to the new one, such as `SaveTaskOn` or `DeleteTaskOn`.
- Lemmas about those functions state what the handler promises: which days and tasks change, that nothing else does, and that records stay migrated and tasks stay on the grid.
- `WeekPlanner`'s methods change the state by exactly these functions.
- Where the handler computes step by step (the drag handlers), its method repeats the computation and is proved equal to the function.

## Model

| member | source | states |
|---|---|---|
| `Text.NatToString` | ubuntu/daily-calendar/src/types.ts:89 | `n.toString()` is a non-empty string of decimal digits with no leading zero unless `n` is 0 |
| `Text.DecimalValueOfNatToString` | ubuntu/daily-calendar/src/types.ts:89 | reading the rendered digits back gives `n` |
| `Text.NatToStringInjective` | ubuntu/daily-calendar/src/types.ts:115-117 | different numbers render as different strings |
| `Text.IntToString` | ubuntu/daily-calendar/src/types.ts:117 | `${y}` of an integer: the digits of a non-negative one, and a minus sign followed by the digits of its magnitude otherwise |
| `Text.PadStart2` | ubuntu/daily-calendar/src/types.ts:89 | `padStart(2, '0')` keeps the string as its suffix, reaches length 2, and fills only with zeros |
| `Text.TwoDigits` | ubuntu/daily-calendar/src/types.ts:89 | `n.toString().padStart(2, '0')`; `Text.PadStart2` states the padding and `Text.TwoDigitsValue` that below 100 it is exactly the two digits of `n` |
| `Text.TwoDigitsValue` | ubuntu/daily-calendar/src/types.ts:89 | below 100 the padded rendering is exactly two digits that spell the number |
| `Text.TrimStart` | ubuntu/daily-calendar/src/components/TaskModal.tsx:57 | the result is a suffix; everything dropped is white space; the result does not start with white space |
| `Text.TrimEnd` | ubuntu/daily-calendar/src/components/TaskModal.tsx:57 | the result is a prefix; everything dropped is white space; the result does not end with white space |
| `Text.Trim` | ubuntu/daily-calendar/src/components/TaskModal.tsx:57 | `trim()`, as `TrimStart` then `TrimEnd`; `Text.TrimSpec` and `Text.TrimIdempotent` state what it gives |
| `Text.TrimSpec` | ubuntu/daily-calendar/src/components/TaskModal.tsx:57 | `trim()` gives a contiguous piece of the input that neither starts nor ends with white space, and gives the empty string exactly when the input is all white space |
| `Text.TrimIdempotent` | ubuntu/daily-calendar/src/components/TaskModal.tsx:71 | trimming a trimmed title changes nothing |
| `Calendar.MonthLength` | ubuntu/daily-calendar/src/components/DatePicker.tsx:80 | months have 28 to 31 days; February has 29 exactly in leap years |
| `Calendar.YearLength` | ubuntu/daily-calendar/src/components/DatePicker.tsx:80 | a year has 366 days exactly when it is a leap year, otherwise 365 |
| `Calendar.MonthFollowsMonth` | ubuntu/daily-calendar/src/components/DatePicker.tsx:80 | the first of month `m + 1`, with the month carried into the year as `Date` does, comes `MonthLength(y, m)` days after the first of month `m` |
| `Calendar.LastDayOfMonth` | ubuntu/daily-calendar/src/components/DatePicker.tsx:80 | `new Date(y, m + 1, 0)` is day `MonthLength(y, m)` of month `m`, the day before the first of the next month |
| `Calendar.DayNumberInjective` | ubuntu/daily-calendar/src/types.ts:121-125 | two valid dates with the same day number are the same date; this turns `isSameDay`'s same-year, same-month, same-day test into equality of day numbers, which the week and picker lemmas compare |
| `Calendar.MakeDay` | ubuntu/daily-calendar/src/components/DatePicker.tsx:74 | `new Date(y, m, d)`: for months 0 to 11 it is that day of that month; month 12 carries to January of the next year and month -1 to December of the year before |
| `Calendar.Weekday` | ubuntu/daily-calendar/src/types.ts:135 | `getDay()` is between 0 and 6; it is 1 (Monday) exactly on the days counted as 0 modulo 7 and 0 (Sunday) exactly on those counted as 6 |
| `Calendar.DateOf` | ubuntu/daily-calendar/src/types.ts:114-116 | `getFullYear()`, `getMonth()` and `getDate()` of a day give a valid date that carries that day number, with a year of at least 1 from 0001-01-01 on |
| `Calendar.DateOfDayNumber` | ubuntu/daily-calendar/src/types.ts:114-116 | reading back a valid date's day number gives that date, so `DateOf` inverts the numbering |
| `Types.CreateEmptyDayData` | ubuntu/daily-calendar/src/types.ts:58-65 | a new record carries the key as its date, has no tasks, has six empty journal entries, is already in the three-improvement form, and has no legacy `improvement` text |
| `Types.MigrateDayData` | ubuntu/daily-calendar/src/types.ts:68-77 | the result is always migrated; a migrated record is returned unchanged; an old record gets the legacy text (or `''`) as item 1 and empty items 2 and 3 |
| `Types.LegacyImprovement` | ubuntu/daily-calendar/src/types.ts:71 | `data.improvement || ''`: the legacy text when there is one, and the empty string when it is absent |
| `Types.MigrateIdempotent` | ubuntu/daily-calendar/src/types.ts:68-77 | migrating twice is migrating once, and a new empty record needs no migration |
| `Types.MigrateKeepsContent` | ubuntu/daily-calendar/src/types.ts:68-77 | migration leaves the date, tasks, good things and legacy text unchanged |
| `Types.FormatTime` | ubuntu/daily-calendar/src/types.ts:88-90 | the text is at least five characters long and has `:` right after the padded hour; `Types.FormatTimeShape` spells out its digits |
| `Types.FormatTimeShape` | ubuntu/daily-calendar/src/types.ts:88-90 | for an hour and a minute below 100 the text is `DD:DD` and its digits spell the hour and the minute |
| `Types.SnapToGrid` | ubuntu/daily-calendar/src/types.ts:93-95 | the result is a multiple of 30 at most 15 minutes away, and a tie at 15 minutes past a grid line goes up, as `Math.round` does |
| `Types.SnapToGridNearest` | ubuntu/daily-calendar/src/types.ts:93-95 | no multiple of 30 is nearer to the input than the snapped value |
| `Types.SlotToTime` | ubuntu/daily-calendar/src/types.ts:103-108 | the clock time has minute 0 or 30 and lies `slot` half hours after midnight |
| `Types.SlotRoundTrip` | ubuntu/daily-calendar/src/types.ts:98-108 | `minutesToSlot(slotToTime(slot))` gives back `slot` |
| `Types.GridTimeRoundTrip` | ubuntu/daily-calendar/src/types.ts:98-108 | a grid time of the day is in slot 0..47, and that slot begins at that time |
| `Types.MinutesToSlot` | ubuntu/daily-calendar/src/types.ts:98-100 | for a minute below 60, the slot's half hour contains the time: `30 * slot <= 60 * hour + minute < 30 * (slot + 1)` |
| `Types.MinutesToSlotHalves` | ubuntu/daily-calendar/src/types.ts:98-100 | minutes 30 to 59 go to the hour's second slot and minutes 0 to 29 to its first |
| `Types.FormatDateStr` | ubuntu/daily-calendar/src/types.ts:113-118 | the key ends in `-DD-DD` (`Types.IsDateKey`), and for a non-negative year everything before that is digits; `Types.DateStrRoundTrip` is its partner |
| `Types.FormatDateStrParts` | ubuntu/daily-calendar/src/types.ts:113-118 | for a non-negative year the key is the year's digits, a dash, the padded month, a dash and the padded day |
| `Types.DateStrRoundTrip` | ubuntu/daily-calendar/src/types.ts:113-118 | a `YYYY-MM-DD` key made from a valid date with a non-negative year reads back as that date |
| `Types.DateStrInjective` | ubuntu/daily-calendar/src/types.ts:113-118 | distinct dates get distinct keys, so each day has its own record in the week map |
| `Types.DayKey` | ubuntu/daily-calendar/src/App.tsx:101 | `formatDateStr(day)` for a day number has the `-DD-DD` key shape |
| `Types.DayKeyInjective` | ubuntu/daily-calendar/src/App.tsx:100-102 | from 0001-01-01 on, different days get different keys, so the week's seven days load into seven records |
| `Types.GetWeekStart` | ubuntu/daily-calendar/src/types.ts:133-140 | the result is a Monday 0 to 6 days before the date, and 6 days before it when the date is a Sunday |
| `Types.WeekStartUnique` | ubuntu/daily-calendar/src/types.ts:133-140 | only one Monday lies in the six days up to and including any day, so the week start is the Monday of the date's week |
| `Types.GetWeekDays` | ubuntu/daily-calendar/src/types.ts:143-151 | seven days; day `i` comes `i` days after the week start |
| `Types.WeekFromMonday` | ubuntu/daily-calendar/src/types.ts:143-151 | a week that starts on Monday runs Monday, Tuesday, ..., Sunday |
| `TaskModal.OrEmpty` | ubuntu/daily-calendar/src/components/TaskModal.tsx:23-24 | `task?.location || ''`: the text when present, and the empty string when absent |
| `TaskModal.InitialForm` | ubuntu/daily-calendar/src/components/TaskModal.tsx:17-24 | an edited task fills the form, with absent location and notes shown as `''`; a new one gets the proposed start (09:00 when none), 60 minutes, the first colour and empty text |
| `TaskModal.ClampDuration` | ubuntu/daily-calendar/src/components/TaskModal.tsx:59-63 | the task ends by 24:00; the duration is never lengthened; it is kept when it fits and cut to end at 24:00 exactly when it does not |
| `TaskModal.ClampOnGrid` | ubuntu/daily-calendar/src/components/TaskModal.tsx:59-63 | from a start on the half hour, a clamped multiple of 30 is still a multiple of 30 |
| `TaskModal.OptionalText` | ubuntu/daily-calendar/src/components/TaskModal.tsx:76-77 | `text.trim() \|\| undefined` is absent exactly when the trimmed text is empty, and otherwise is the trimmed text |
| `TaskModal.Submit` | ubuntu/daily-calendar/src/components/TaskModal.tsx:55-80 | nothing is saved exactly when the trimmed title is empty or the clamped duration is under 30; otherwise the saved task keeps the edited task's non-empty id (else the fresh id), the trimmed title, the start, the clamped duration (30 or more, at most the requested one, ending by 24:00), the colour, the optional texts and the chosen day |
| `TaskModal.SubmitWellFormed` | ubuntu/daily-calendar/src/components/TaskModal.tsx:55-80 | with a start on the half hour and a duration that is a multiple of 30, any saved task is well formed |
| `TaskModal.ResubmitUnchanged` | ubuntu/daily-calendar/src/components/TaskModal.tsx:17-80 | opening a task the form saved and submitting it untouched saves the same task on the form's day |
| `TaskModal.OptionalTextOfOptional` | ubuntu/daily-calendar/src/components/TaskModal.tsx:23-24 | an absent or trimmed non-empty location or note survives the form's `\|\| ''` and `trim() \|\| undefined` |
| `TaskModal.TimeOptions` | ubuntu/daily-calendar/src/components/TaskModal.tsx:35-40 | 48 entries; entry `i` is the start of slot `i` with its `HH:MM` caption |
| `TaskModal.TimeOptionsOrdered` | ubuntu/daily-calendar/src/components/TaskModal.tsx:35-40 | the start times are grid times of the day, in strictly increasing order, and each entry's slot is its position |
| `TaskModal.DurationOptions` | ubuntu/daily-calendar/src/components/TaskModal.tsx:43-52 | 16 entries; entry `i` is `30 * (i + 1)` minutes with its label |
| `TaskModal.DurationLabel` | ubuntu/daily-calendar/src/components/TaskModal.tsx:45-50 | below an hour the label is exactly `M分钟`; from an hour on it starts with `N小时`, and for whole hours it is exactly `N小时`; otherwise what lies between `小时` and `分钟` is exactly the minutes, unpadded; it ends in `小时` exactly for whole hours and in `分钟` otherwise |
| `TaskModal.DurationLabelRoundTrip` | ubuntu/daily-calendar/src/components/TaskModal.tsx:45-50 | the label (`N小时M分钟`, `N小时` or `M分钟`) reads back as the duration it was made from |
| `Planner.FirstWithId` | ubuntu/daily-calendar/src/App.tsx:254 | the position `find` stops at: no earlier task has the id, and the task there has it |
| `Planner.DayOf` | ubuntu/daily-calendar/src/App.tsx:146 | `weekDataMap[ds] || createEmptyDayData(ds)`: the held record, or otherwise a new empty, migrated record for that key; when every held record is migrated, so is the result |
| `Planner.RemoveById` | ubuntu/daily-calendar/src/App.tsx:230 | `filter((t) => t.id !== id)` never lengthens the list; `Planner.RemoveByIdMembers`, `Planner.RemoveByIdCount` and `Planner.RemoveByIdAppend` state what it keeps |
| `Planner.FindById` | ubuntu/daily-calendar/src/App.tsx:254 | absent exactly when no task has the id; otherwise the first task with the id |
| `Planner.RemoveByIdMembers` | ubuntu/daily-calendar/src/App.tsx:230 | the filter keeps exactly the tasks whose id differs |
| `Planner.RemoveByIdAppend` | ubuntu/daily-calendar/src/App.tsx:230 | filtering distributes over concatenation, so the kept tasks stay in order |
| `Planner.RemoveByIdCount` | ubuntu/daily-calendar/src/App.tsx:230 | each task with another id is kept as many times as it occurs; none with the id is kept |
| `Planner.RemoveByIdAbsent` | ubuntu/daily-calendar/src/App.tsx:230 | with no task carrying the id, the list is unchanged |
| `Planner.MapById` | ubuntu/daily-calendar/src/App.tsx:213 | same length; position `i` holds the edited task when the id matches, else the same task |
| `Planner.SaveTaskOn` | ubuntu/daily-calendar/src/App.tsx:190-221 | the days held afterwards are those before plus the target day (and the form's day when editing); every other day is unchanged; the target day's journal is unchanged |
| `Planner.SaveKeepsMigrated` | ubuntu/daily-calendar/src/App.tsx:190-221 | saving keeps every record migrated |
| `Planner.SavedTasksFrom` | ubuntu/daily-calendar/src/App.tsx:190-221 | every task on a day after a save was on that day before or is the saved task, under its own id or the fresh one |
| `Planner.SaveKeepsWellFormed` | ubuntu/daily-calendar/src/App.tsx:190-221 | saving a well-formed task keeps every task of the week well formed |
| `Planner.SaveNewTaskAppends` | ubuntu/daily-calendar/src/App.tsx:214-217 | a new task is appended to the target day under the fresh id, after the tasks already there |
| `Planner.SaveEditSameDay` | ubuntu/daily-calendar/src/App.tsx:211-213 | an edit on the same day replaces, in place, the tasks with the saved id and changes no other task |
| `Planner.SaveEditMovesDay` | ubuntu/daily-calendar/src/App.tsx:192-205 | an edit that moves the task to another day leaves no task with the edited id on the old day (the filter result, journal kept) and appends the task under the fresh id to the target day |
| `Planner.DeleteTaskOn` | ubuntu/daily-calendar/src/App.tsx:227-233 | only day `ds` changes; its task list becomes `RemoveById` of the old one, so it keeps exactly its tasks with another id, and its journal stays; records stay migrated |
| `Planner.DeleteKeepsWellFormed` | ubuntu/daily-calendar/src/App.tsx:227-233 | deleting keeps every task well formed |
| `Planner.DeleteAbsentId` | ubuntu/daily-calendar/src/App.tsx:239-245 | deleting an id that no task of a held day carries leaves the week as it was |
| `Planner.UpdateGoodThingOn` | ubuntu/daily-calendar/src/App.tsx:144-150 | on the day, the chosen good thing becomes the value and the other two, the tasks and the improvements stay; no other day changes |
| `Planner.UpdateImprovementOn` | ubuntu/daily-calendar/src/App.tsx:153-159 | on the day, the chosen improvement becomes the value and the other two, the tasks and the good things stay; no other day changes |
| `Planner.TaskStartSlot` | ubuntu/daily-calendar/src/App.tsx:274 | for a start minute of 0 or 30, the slot's start is the task's start (`30 * slot` minutes) and agrees with `minutesToSlot` |
| `Planner.MovedSlot` | ubuntu/daily-calendar/src/App.tsx:274-278 | the new start slot is non-negative, lets a task of at most a day end by 24:00, equals the original slot plus the delta when that fits, is 0 when the delta goes before midnight, and is the last slot a task of that length can start at when the delta goes past it |
| `Planner.MovedStart` | ubuntu/daily-calendar/src/App.tsx:276-279 | the new start is on the half hour, and a task of at most a day still ends by 24:00 |
| `Planner.ResizedSlots` | ubuntu/daily-calendar/src/App.tsx:292-298 | from a start slot within the day, at least one slot and no slot past 24:00; never more than the requested slots; exactly the requested slots (at least 1) when they fit, and exactly the slots left before 24:00 when they do not |
| `Planner.MoveTaskOn` | ubuntu/daily-calendar/src/App.tsx:261-289 | a move changes only the dragged day, never its journal, and keeps records migrated |
| `Planner.ResizeTaskOn` | ubuntu/daily-calendar/src/App.tsx:290-309 | a resize changes only the dragged day, never its journal, and keeps records migrated |
| `Planner.MoveChangesOnlyStart` | ubuntu/daily-calendar/src/App.tsx:279-288 | each task is unchanged or is a task with the id given the new start; the task found next time is the one found before, at the new start |
| `Planner.ResizeChangesOnlyLength` | ubuntu/daily-calendar/src/App.tsx:300-307 | each task is unchanged or is a task with the id given the new duration; the task found next time is the one found before, with the new duration |
| `Planner.MovedMapKeepsFirst` | ubuntu/daily-calendar/src/App.tsx:269 | after the edit, `find` returns the first task with the id, edited |
| `Planner.MoveToSameStartIsNoOp` | ubuntu/daily-calendar/src/App.tsx:282 | when the task already starts at the new time the week is unchanged |
| `Planner.ResizeToSameLengthIsNoOp` | ubuntu/daily-calendar/src/App.tsx:301 | when the task already has the new duration the week is unchanged |
| `Planner.MovedTaskWellFormed` | ubuntu/daily-calendar/src/App.tsx:274-279 | a well-formed task with the drag's length, moved to the clamped start, stays well formed |
| `Planner.ResizedTaskWellFormed` | ubuntu/daily-calendar/src/App.tsx:292-300 | a well-formed task at the drag's start slot, given the clamped length, stays well formed |
| `Planner.MoveKeepsWellFormed` | ubuntu/daily-calendar/src/App.tsx:272-289 | a move keeps every task of the week on the grid and inside the day |
| `Planner.ResizeKeepsWellFormed` | ubuntu/daily-calendar/src/App.tsx:290-309 | a resize keeps every task of the week on the grid and inside the day |
| `Planner.LoadedDay` | ubuntu/daily-calendar/src/utils/storage.ts:25-46 | a loaded record is migrated; a missing one is a new empty record; a stored one is exactly the migration of what was stored, so it keeps its date, tasks and good things |
| `Planner.DayKeys` | ubuntu/daily-calendar/src/App.tsx:100-101 | one key per day, in order: entry `i` is `formatDateStr` of day `i` |
| `Planner.WeekRecordsKeys` | ubuntu/daily-calendar/src/App.tsx:99-104 | the collected map holds exactly the given keys |
| `Planner.WeekRecordsLoaded` | ubuntu/daily-calendar/src/App.tsx:99-104 | each record in the collected map is the one loaded for its key |
| `Planner.LoadedWeek` | ubuntu/daily-calendar/src/App.tsx:99-104 | the loop builds exactly the collected map of the days' keys: those keys, each with its loaded record, all migrated |
| `Planner.ReloadedWeek` | ubuntu/daily-calendar/src/App.tsx:96-107 | an empty list of days keeps the map held; any other week gives exactly the days' keys, each with its record as loaded from storage; either way every record is migrated |
| `Planner.WeekPlanner.constructor` | ubuntu/daily-calendar/src/App.tsx:57-67 | the view opens on today with no records held and the form closed |
| `Planner.WeekPlanner.SelectedDay` | ubuntu/daily-calendar/src/App.tsx:137-139 | the selected day's record when one is held, and otherwise exactly `CreateEmptyDayData` of the selected key |
| `Planner.WeekPlanner.LoadWeek` | ubuntu/daily-calendar/src/App.tsx:96-107 | an empty list of days leaves the map as it was; otherwise the map then holds exactly the keys `formatDateStr` gives the week's days, each with its record as loaded from storage, and every record is migrated; nothing else changes |
| `Planner.WeekPlanner.OpenCell` | ubuntu/daily-calendar/src/App.tsx:164-170 | the form opens for a new task on that day, proposed at the start of the clicked slot; the planner stays valid |
| `Planner.WeekPlanner.OpenTask` | ubuntu/daily-calendar/src/App.tsx:173-179 | the form opens on the clicked task and its day, with no proposed start; the planner stays valid |
| `Planner.WeekPlanner.OpenNew` | ubuntu/daily-calendar/src/App.tsx:182-187 | the form opens for a new task at 09:00 on the selected day; the planner stays valid |
| `Planner.WeekPlanner.CloseModal` | ubuntu/daily-calendar/src/App.tsx:512 | the form closes and forgets the edited task; the planner stays valid |
| `Planner.WeekPlanner.SaveTask` | ubuntu/daily-calendar/src/App.tsx:190-224 | the week becomes `SaveTaskOn` of the old week and form state; records stay migrated; the form closes |
| `Planner.WeekPlanner.DeleteTask` | ubuntu/daily-calendar/src/App.tsx:227-236 | the form's day loses the task as `DeleteTaskOn` says; the form closes |
| `Planner.WeekPlanner.QuickDelete` | ubuntu/daily-calendar/src/App.tsx:239-246 | the given day loses the task as `DeleteTaskOn` says; nothing else changes |
| `Planner.WeekPlanner.UpdateGoodThing` | ubuntu/daily-calendar/src/App.tsx:144-150 | the selected day's good thing changes as `UpdateGoodThingOn` says |
| `Planner.WeekPlanner.UpdateImprovement` | ubuntu/daily-calendar/src/App.tsx:153-159 | the selected day's improvement changes as `UpdateImprovementOn` says |
| `Planner.WeekPlanner.BeginDrag` | ubuntu/daily-calendar/src/App.tsx:249-258 | no drag exactly when the day is not held or has no task with the id; otherwise the drag starts from the first task with the id, the one `find` returns (`Planner.FindById`) |
| `Planner.WeekPlanner.DragMove` | ubuntu/daily-calendar/src/App.tsx:261-289 | the handler's step-by-step computation yields exactly `MoveTaskOn`; records stay migrated |
| `Planner.WeekPlanner.DragResize` | ubuntu/daily-calendar/src/App.tsx:290-309 | the handler's step-by-step computation yields exactly `ResizeTaskOn`; records stay migrated |
| `DatePicker.Toggle` | ubuntu/daily-calendar/src/components/DatePicker.tsx:42-56 | a header click opens its pop-over, or closes it when it is the one open |
| `DatePicker.ToggleTwice` | ubuntu/daily-calendar/src/components/DatePicker.tsx:42-56 | from a closed pop-over, or from the header's own pop-over, clicking the same header twice returns to the starting mode |
| `DatePicker.PrevMonthOf` | ubuntu/daily-calendar/src/components/DatePicker.tsx:169-173 | the month before, with the month in 0..11 (January goes to December of the year before) |
| `DatePicker.NextMonthOf` | ubuntu/daily-calendar/src/components/DatePicker.tsx:177-181 | the month after, with the month in 0..11 (December goes to January of the year after) |
| `DatePicker.PrevNextInverse` | ubuntu/daily-calendar/src/components/DatePicker.tsx:169-181 | `‹` then `›`, or `›` then `‹`, returns to the month shown |
| `DatePicker.NextMonthIsCalendarMonth` | ubuntu/daily-calendar/src/components/DatePicker.tsx:177-181 | the month after is the calendar month `m + 1`: its first day follows the last day of the month shown |
| `DatePicker.GetDaysInMonth` | ubuntu/daily-calendar/src/components/DatePicker.tsx:80 | 28 to 31 days; February has 29 exactly in leap years; the other months have their fixed lengths |
| `DatePicker.DaysInMonthIsLastDay` | ubuntu/daily-calendar/src/components/DatePicker.tsx:80 | `new Date(year, month + 1, 0)` is the date with day `GetDaysInMonth` in the month, and the day after it is not in the month |
| `DatePicker.GetFirstDayOfMonth` | ubuntu/daily-calendar/src/components/DatePicker.tsx:81-84 | the Monday-first column (0..6) whose weekday is that of the month's first day |
| `DatePicker.FirstDayColumns` | ubuntu/daily-calendar/src/components/DatePicker.tsx:81-84 | a month starting on Sunday leaves six blank cells; one starting on Monday leaves none |
| `DatePicker.Years` | ubuntu/daily-calendar/src/components/DatePicker.tsx:99-103 | 21 years, from ten before the current year to ten after, ascending with the current year in the middle |
| `DatePicker.Picker.constructor` | ubuntu/daily-calendar/src/components/DatePicker.tsx:16-19 | closed, showing the selected date's month |
| `DatePicker.Picker.SyncSelected` | ubuntu/daily-calendar/src/components/DatePicker.tsx:36-39 | the view follows a new selected date |
| `DatePicker.Picker.YearClick` | ubuntu/daily-calendar/src/components/DatePicker.tsx:42-44 | the year pop-over toggles |
| `DatePicker.Picker.MonthClick` | ubuntu/daily-calendar/src/components/DatePicker.tsx:47-49 | the month pop-over toggles |
| `DatePicker.Picker.DayClick` | ubuntu/daily-calendar/src/components/DatePicker.tsx:52-56 | the view returns to the selected date's month and the day pop-over toggles |
| `DatePicker.Picker.SelectYear` | ubuntu/daily-calendar/src/components/DatePicker.tsx:59-63 | the chosen year is shown and the month pop-over opens |
| `DatePicker.Picker.SelectMonth` | ubuntu/daily-calendar/src/components/DatePicker.tsx:66-70 | the chosen month is shown and the day pop-over opens |
| `DatePicker.Picker.SelectDay` | ubuntu/daily-calendar/src/components/DatePicker.tsx:73-77 | the chosen date is `new Date(viewYear, viewMonth, day)`, which for a day of the month shown is that valid date; the picker closes |
| `DatePicker.Picker.PrevMonth` | ubuntu/daily-calendar/src/components/DatePicker.tsx:169-173 | the view moves to `PrevMonthOf` the month shown |
| `DatePicker.Picker.NextMonth` | ubuntu/daily-calendar/src/components/DatePicker.tsx:177-181 | the view moves to `NextMonthOf` the month shown |
| `DatePicker.Picker.PrevYear` | ubuntu/daily-calendar/src/components/DatePicker.tsx:147 | the view moves one year back |
| `DatePicker.Picker.NextYear` | ubuntu/daily-calendar/src/components/DatePicker.tsx:149 | the view moves one year forward |
| `DatePicker.Picker.YearTitleClick` | ubuntu/daily-calendar/src/components/DatePicker.tsx:148 | the year pop-over opens |
| `DatePicker.Picker.MonthTitleClick` | ubuntu/daily-calendar/src/components/DatePicker.tsx:174 | the month pop-over opens |
| `DatePicker.Picker.ClickOutside` | ubuntu/daily-calendar/src/components/DatePicker.tsx:22-33 | a press outside the picker closes any open pop-over |

## Left out

- Recurring tasks are not modelled. This covers `RepeatType`, `RecurringConfig` and the `recurringId` and `recurringConfig` fields of a task (types.ts:3-17, 29-30). The handlers modelled here never read them.
- `src/utils/timezone.ts` is not part of this model.
- The end-to-end test files are not part of this model.
- Storage and the Electron bridge are left out (`src/utils/storage.ts`, `electron/`). `Planner.LoadedDay` takes the stored records as a map parameter.
- `scheduleSave` and its 400 ms debounce are left out, and so is every save to disk. The model changes the week map only.
- `generateId` is left out because it reads the clock and randomness. Each call becomes a `freshId` parameter.
- Pixels are left out: `SLOT_HEIGHT`, scrolling, the current-time line and the 30-second timer. A drag's `Math.round(deltaY / SLOT_HEIGHT)` becomes the `slotDelta` parameter.
- The `dragState` indicator and the mouse listeners are not modelled. Each mouse move is one call of `DragMove` or `DragResize`, with the task as it was when the drag began.
- Week navigation (`goToday`, `goPrevWeek`, `goNextWeek`) is left out, along with `isSameDay`, `isToday` and the language context. They only move `selectedDate` or render text.
- JavaScript `Date` objects are modelled as integer day numbers in the proleptic Gregorian calendar (`Calendar`). Local time zones, daylight saving and hours within a day are not modelled.
- `Calendar.DateYear` models the constructor's reading of a year in 0..99 as 1900 + year.
- `Types.MigrateDayData` returns a new value. The source assigns `improvements` on the record it was given and returns that same object, so aliasing is not modelled.
- `Types.FormatDateStr` renders a negative year with a minus sign, as the template string does. `Types.DateStrRoundTrip` covers non-negative years only.
- `Types.FormatTimeShape` states the `DD:DD` shape only for an hour and a minute below 100. Above that, `padStart` leaves the longer text as it is (`Text.PadStart2`).
- `Planner.UpdateImprovementOn` requires the day's record to be migrated. Every record the planner holds is migrated (`Planner.WeekPlanner.Valid`, `Planner.LoadedDay`), and a record not held is a new one, which is already migrated. The source would spread `undefined` for an unmigrated record, and that case is not modelled.
- `Planner.MovedSlot`, `Planner.ResizedSlots`, `Planner.MoveTaskOn`, `Planner.ResizeTaskOn`, `Planner.WeekPlanner.DragMove` and `Planner.WeekPlanner.DragResize` require the original duration to be a multiple of 30. That is the duration invariant types.ts:25 documents. For other durations JavaScript's `duration / 30` is a fraction, which is not modelled.
- `Planner.MoveKeepsWellFormed` and `Planner.ResizeKeepsWellFormed` assume the dragged task still has the length (for a move) or the start (for a resize) that the drag began with. The handler computes from the task as it was at the start of the drag.
- `TaskModal.SubmitWellFormed` assumes a start on the half hour and a duration that is a multiple of 30. The form's own lists supply such values, and so does a well-formed edited task, whose duration fills the form (TaskModal.tsx:21) and may be any multiple of 30 up to a whole day after a resize.
- `DatePicker.Picker.SelectDay` returns the chosen date as a day number and does not model the `onDateChange` callback. `DatePicker.Years` takes the current year as a parameter.
- `isSelectedDay` and `isTodayDay` in the day pop-over only choose CSS classes, so they are not modelled.
- Translations (`src/i18n`, `src/contexts`) and rendering are left out.
