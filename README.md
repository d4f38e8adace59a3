# Weekly availability model

A Dafny model of the state logic of the doctor dashboard's weekly
availability page (`src/Availability.js`): the fixed list of half-hour slot
labels, the Monday-to-Sunday week derived from the selected date, the
`yyyy-MM-dd` day keys, the effect that adds a record for every newly shown
day without touching existing ones, the off-day and slot toggles, and the
per-day count of available slots.

Files and modules:

- `numerals.dfy` (`Numerals`): decimal rendering of numbers as template
  literals and date-fns' zero-padded fields produce it, and its parser.
- `time_slots.dfy` (`TimeSlots`): the slot labels and the loop that builds them.
- `calendar.dfy` (`Calendar`): dates as day numbers, `getDay`, `startOfWeek`
  with `weekStartsOn: 1`, `addDays`, the week window, civil dates and the
  `yyyy-MM-dd` key.
- `store.dfy` (`Store`): day records, the ensure merge, the two toggle
  updaters and the available-slot count, with their properties.
- `availability.dfy` (`AvailabilityView`): the component's state as a class,
  the effect body as a loop, and the handlers.
- `wrappers.dfy` (`Wrappers`): `Option`, `Result`, `Outcome`.

A date is a natural number of days since Monday 0001-01-01 of the proleptic
Gregorian calendar, which is the calendar JavaScript's `Date` uses. Day
arithmetic is whole calendar days, as date-fns `addDays` does. The random
pre-fill of a new day's slots (`Math.random() > 0.3`) is an injected policy
`fill(dayKey, slot)`. A day key gets a record at most once, so every sequence
of random draws the page can make is some such function. Every property
below holds for every policy.

Notes on how the code behaves, which the model follows:

- A slot toggle on a slot the day lacks reads `slots[slot]` as `undefined`
  and stores `!undefined`, which is `true`, so the slot is added as
  available. `Store.ToggleSlot` does that, and toggling such a slot twice
  leaves it present and unavailable.
- The hours are fixed at 9 and 17 in the code.
- A toggle on a day key without a record throws a `TypeError` inside a
  React state updater. The model represents that throw as `Fail(UnknownKey)`
  with the state unchanged. No shown day reaches this case, because
  `Valid()` keeps every shown day's key in the map.
- The effect walks the seven days in order, so `Store.Ensure` folds over the
  list of keys. `Store.EnsureIsMerge` proves it equals the set-based merge.

## Model

| member | source | states |
|---|---|---|
| `TimeSlots.BuildTimeSlots` | src/Availability.js:23-27 | the loop over hours 9 to 16 that pushes `"h:00"` then `"h:30"` yields exactly the catalog: entry `i` is hour 9 + i/2, on the half hour when `i` is odd |
| `TimeSlots.CatalogShape` | src/Availability.js:23-27 | the catalog has 16 labels, `"9:00"` first and `"16:30"` last, and each hour's `":00"` label is directly followed by its `":30"` label |
| `TimeSlots.CatalogNoDuplicates` | src/Availability.js:23-27 | no label occurs twice in the catalog |
| `TimeSlots.SlotLabelRoundTrip` | src/Availability.js:25-26 | a label `` `${hour}:00` `` or `` `${hour}:30` `` reads back as the hour and half that made it |
| `TimeSlots.SlotLabelInjective` | src/Availability.js:25-26 | two labels are equal exactly when they name the same hour and the same half |
| `Calendar.StartOfWeek` | src/Availability.js:31 | `startOfWeek(d, { weekStartsOn: 1 })` is a Monday, on or before `d`, less than seven days before it |
| `Calendar.WeekOf` | src/Availability.js:31-37 | the week has 7 days, the first a Monday, each the day after the previous, and the selected date at index (getDay + 6) mod 7, so a Sunday goes back 6 days |
| `Calendar.SameWeekSameWindow` | src/Availability.js:31-37 | two dates give the same window if and only if the second lies in the first's window |
| `Calendar.WednesdayWindow` | src/Availability.js:31-37 | Wednesday 3 January 2024 gives the window Monday 1 to Sunday 7 January, with the Wednesday at index 2 |
| `Calendar.YearOfEra` | src/Availability.js:40 | a day of a 400-year era splits into a year below 400 and a day of that year below 366, which add back up to the same day |
| `Calendar.MonthDay` | src/Availability.js:40 | a day of the March-based year splits into a month 1..12 and a day 1..31 that add back up to the same day |
| `Calendar.ToCivil` | src/Availability.js:40 | the civil date of a day has a month in 1..12 and a day in 1..31 |
| `Calendar.CivilRoundTrip` | src/Availability.js:40 | converting a day to its civil date and back gives the same day |
| `Calendar.ToCivilInjective` | src/Availability.js:40 | two days have the same civil date exactly when they are the same day |
| `Calendar.KeyFieldsRoundTrip` | src/Availability.js:40 | a key built from a zero-padded year, month and day reads back as those three numbers |
| `Calendar.FormatDayKeyRoundTrip` | src/Availability.js:40 | the `yyyy-MM-dd` key of a day reads back as that day's civil date |
| `Calendar.FormatDayKeyInjective` | src/Availability.js:40 | two days share a key exactly when they are the same day |
| `Calendar.WeekKeysAreDistinct` | src/Availability.js:35-40 | the 7 keys of a week window are pairwise different |
| `Calendar.WeekKeysDistinct` | src/Availability.js:35-40 | seven consecutive days have seven different keys |
| `Calendar.DayZero` | src/Availability.js:40 | day 0 is a Monday with civil date 0001-01-01 and key `"0001-01-01"` |
| `Calendar.NewYear2024` | src/Availability.js:40 | day 738885 is a Monday with civil date 2024-01-01 |
| `Calendar.NewYear2024Key` | src/Availability.js:40 | the key of day 738885 is `"2024-01-01"` |
| `Numerals.ParseDecimalOfDecimal` | src/Availability.js:25-26 | the decimal numeral of a number reads back as that number |
| `Numerals.ParsePadDecimal` | src/Availability.js:40 | a zero-padded field of the key reads back as the number it renders |
| `Numerals.PadTwoDigits` | src/Availability.js:40 | a month or day below 100 renders as exactly two characters |
| `Store.FreshRecord` | src/Availability.js:42-49 | a new day is a working day whose slot keys are exactly the catalog's labels, each flag given by the fill policy |
| `Store.DistinctSeqCardinality` | src/Availability.js:42-49 | a sequence without repeated entries has as many distinct elements as entries, so a map keyed by such a sequence has one entry per element |
| `AvailabilityView.FreshCatalogRecordSize` | src/Availability.js:42-49 | a fresh record over the catalog has exactly 16 slot flags |
| `AvailabilityView.NewYearFreshRecord` | src/Availability.js:34-50 | showing the week of 1 January 2024 in a state without that day creates its record: a working day with 16 slot flags |
| `Store.EnsureSpec` | src/Availability.js:33-51 | after the ensure step the keys are the old keys plus the requested ones; every old record is kept identical, toggles included; every added key has a fresh record |
| `Store.EnsureIsMerge` | src/Availability.js:33-51 | the key-by-key ensure equals the merge that maps each old key to its record and each new requested key to a fresh record |
| `Store.EnsurePresentIsIdentity` | src/Availability.js:41 | ensuring keys that all have records changes nothing |
| `Store.EnsureIdempotent` | src/Availability.js:33-51 | running the ensure step twice with the same keys gives the same state as running it once |
| `Store.ToggleOffDay` | src/Availability.js:63-71 | fails exactly when the day has no record; otherwise only that day's `isOffDay` is negated, its slots and every other day stay as they were |
| `Store.ToggleOffDayInvolution` | src/Availability.js:63-71 | toggling the off-day flag twice restores the state |
| `Store.ToggleSlot` | src/Availability.js:74-85 | fails exactly when the day has no record; otherwise only that day's flag for the slot changes, to the negation of its reading (an absent slot reads as unavailable and is added); `isOffDay`, other slots and other days stay as they were |
| `Store.ToggleSlotInvolution` | src/Availability.js:74-85 | toggling a slot twice restores the state when the day has the slot; an absent slot is left behind as unavailable |
| `Store.EditsSurviveNavigation` | src/Availability.js:33-85 | an edit made in a shown week survives moving to any other week and back unchanged, and coming back changes nothing |
| `Store.CountAvailableSlots` | src/Availability.js:88-91 | 0 for a day without a record; otherwise the number of its available slots, at most its number of slots |
| `Store.FreshRecordCount` | src/Availability.js:42-49 | a new day's count is the number of catalog slots the fill policy marks available, at most the catalog's size |
| `Store.ToggleOffDayKeepsCounts` | src/Availability.js:63-91 | the off-day toggle changes no day's count, since the count ignores `isOffDay` |
| `Store.ToggleSlotChangesCountByOne` | src/Availability.js:74-91 | a slot toggle lowers the day's count by one when the slot was available and raises it by one otherwise; other days' counts are unchanged |
| `AvailabilityView.FillSlots` | src/Availability.js:44-48 | the `reduce` that fills a new day's slot map gives one entry per catalog slot, valued by the fill policy |
| `AvailabilityView.EnsureDay` | src/Availability.js:40-50 | a day key without a record gets a fresh record; a key with a record is left as it is |
| `AvailabilityView.EnsureNextDay` | src/Availability.js:39-49 | one iteration formats the day's key and ensures it, so the keys ensured so far grow by that day's key |
| `AvailabilityView.WalkWeek` | src/Availability.js:31-50 | the loop from a start day collects the seven days from it and ensures their keys, in order |
| `AvailabilityView.DeriveWeek` | src/Availability.js:29-53 | the effect yields the selected date's week window and the state with that week's keys ensured |
| `AvailabilityView.NewYearToggleSurvives` | src/Availability.js:33-85 | slot `"9:00"` of `"2024-01-01"`, toggled in its week, still shows the toggled flag after visiting any other week and returning |
| `AvailabilityView.Availability.constructor` | src/Availability.js:18-55 | mounting with date `today` selects it, shows its week and ensures that week's keys in an empty state |
| `AvailabilityView.Availability.HandleDateChange` | src/Availability.js:30-60 | selecting a date shows its week and ensures its keys: no record is lost or changed, and a date in the week already shown changes no record |
| `AvailabilityView.Availability.HandleOffDayToggle` | src/Availability.js:63-71 | applies the off-day updater to the state; for a day without a record it fails and changes nothing |
| `AvailabilityView.Availability.HandleSlotToggle` | src/Availability.js:74-85 | applies the slot updater to the state; for a day without a record it fails and changes nothing |

## Left out

- Rendering (src/Availability.js:99-262) and all of src/Patients.js: presentation only, with no state logic.
- The save handler `handleSaveChanges` (src/Availability.js:94-97): it only logs the state to the console.
- The random pre-fill `Math.random() > 0.3`: replaced by the injected fill policy, because it is nondeterministic.
- The "hours available" label `availableSlotsCount/2`: a display value computed with fractional JavaScript numbers.
- "Today" highlighting with `isSameDay(day, new Date())`: depends on the wall clock.
- Time zones, daylight-saving shifts and clock time inside a day: a date is a whole calendar day.
- Dates before 0001-01-01: the model's dates start there. For years 0 and below, date-fns prints the era year, so keys would collide across eras. Dates past JavaScript's largest `Date` (year 275760) are not excluded either.
- React's batching of state updates and closure capture in `useEffect`: each handler is one sequential state change.
- The state before the first effect run (an empty week and an empty map): the constructor includes that first run, as mounting does.
- `handleDateChange` with the identical `Date` object: React would skip the effect. The model always runs it, and `HandleDateChange` proves the result is then unchanged anyway.
- Store.ToggleOffDay: keys are only the page's own `yyyy-MM-dd` keys. A key naming an `Object.prototype` member (such as `"toString"`) reads an inherited value in JavaScript, so the code adds `{isOffDay: true}` where the model fails; such keys are not modelled.
- Store.ToggleSlot: likewise for keys, and slots are only the catalog's labels. A slot named after an `Object.prototype` member (such as `"constructor"`) reads as truthy, so the code stores `false` where the model stores `true`.
- Store.CountAvailableSlots: for a key naming an `Object.prototype` member the code throws at `Object.values(undefined)`, where the model returns 0; such keys are not modelled.
- The throw of a toggle on a day without a record: React re-runs the updater during render and, with no error boundary, the component unmounts and loses its state. The model keeps the state and reports `Fail(UnknownKey)`.
- date-fns internals are not part of this model. `startOfWeek`, `addDays` and `format` are modelled from their documented behaviour for whole days.
