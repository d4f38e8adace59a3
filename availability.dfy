/** The Availability component's state and handlers: the selected date, the
    shown week, the availability map, the effect that re-derives the week
    when the selected date changes, and the two toggle handlers. */
module AvailabilityView {
  import opened Wrappers
  import opened TimeSlots
  import opened Calendar
  import opened Store

  /** The `reduce` that fills a new day's slot map: one entry per slot of
      the catalog, valued by the fill policy. */
  method FillSlots(dayKey: DayKey, timeSlots: seq<Slot>, fill: FillPolicy) returns (acc: map<Slot, bool>)
    ensures acc == FreshRecord(dayKey, timeSlots, fill).slots
  {
    acc := map[];
    for i := 0 to |timeSlots|
      invariant acc == map s | s in timeSlots[..i] :: fill(dayKey, s)
    {
      acc := acc[timeSlots[i] := fill(dayKey, timeSlots[i])];
    }
    assert timeSlots[..|timeSlots|] == timeSlots;
  }

  /** One step of the effect's loop: a day key without a record gets a fresh
      one; a key with a record is left as it is. */
  method EnsureDay(data: AvailabilityData, dayKey: DayKey, timeSlots: seq<Slot>, fill: FillPolicy)
    returns (newData: AvailabilityData)
    ensures newData == if dayKey in data then data else data[dayKey := FreshRecord(dayKey, timeSlots, fill)]
  {
    newData := data;
    if dayKey !in newData {
      var slots := FillSlots(dayKey, timeSlots, fill);
      newData := newData[dayKey := DayRecord(false, slots)];
    }
  }

  /** One iteration of the effect's loop: formats the key of `day` and
      ensures it. Over the whole walk, the keys ensured so far are those of
      the days `shown` so far followed by `day`. */
  method EnsureNextDay(ghost original: AvailabilityData, ghost shown: seq<Date>, data: AvailabilityData,
                       day: Date, timeSlots: seq<Slot>, fill: FillPolicy)
    returns (newData: AvailabilityData)
    requires data == Ensure(original, DayKeys(shown), timeSlots, fill)
    ensures newData == Ensure(original, DayKeys(shown + [day]), timeSlots, fill)
  {
    var dayKey := FormatDayKey(day);
    newData := EnsureDay(data, dayKey, timeSlots, fill);
    DayKeysAppend(shown, day);
    assert (DayKeys(shown) + [dayKey])[..|shown|] == DayKeys(shown);
  }

  /** The loop of the effect: walks the seven days from `startDay`,
      collecting them, and adds a fresh record for each day key the copy of
      the state lacks. */
  method WalkWeek(startDay: Date, availabilityData: AvailabilityData, timeSlots: seq<Slot>, fill: FillPolicy)
    returns (days: seq<Date>, newAvailabilityData: AvailabilityData)
    ensures days == DaysFrom(startDay)
    ensures newAvailabilityData == Ensure(availabilityData, DayKeys(days), timeSlots, fill)
  {
    days := [];
    newAvailabilityData := availabilityData;
    for i := 0 to 7
      invariant |days| == i
      invariant forall j :: 0 <= j < i ==> days[j] == AddDays(startDay, j)
      invariant newAvailabilityData == Ensure(availabilityData, DayKeys(days), timeSlots, fill)
    {
      var day := AddDays(startDay, i);
      newAvailabilityData := EnsureNextDay(availabilityData, days, newAvailabilityData, day, timeSlots, fill);
      days := days + [day];
    }
    DaysFromElements(startDay, days);
  }

  /** The body of the effect run on a date change: the loop started from the
      Monday of the selected date's week. The result is the week window and
      the state with that window's keys ensured. */
  method DeriveWeek(selectedDate: Date, availabilityData: AvailabilityData, timeSlots: seq<Slot>, fill: FillPolicy)
    returns (days: seq<Date>, newAvailabilityData: AvailabilityData)
    ensures days == WeekOf(selectedDate)
    ensures newAvailabilityData == Ensure(availabilityData, WeekKeys(selectedDate), timeSlots, fill)
  {
    var startDay := StartOfWeek(selectedDate);
    days, newAvailabilityData := WalkWeek(startDay, availabilityData, timeSlots, fill);
  }

  /** A fresh record over the catalog has one flag for each of its 16 slots. */
  lemma FreshCatalogRecordSize(key: DayKey, fill: FillPolicy)
    ensures |FreshRecord(key, Catalog(), fill).slots| == 16
  {
    CatalogShape();
    CatalogNoDuplicates();
    DistinctSeqCardinality(Catalog());
    assert FreshRecord(key, Catalog(), fill).slots.Keys == set s | s in Catalog();
  }

  /** Showing the week of 1 January 2024 in a state without a record for that
      day creates one: a working day with 16 slot flags. */
  lemma NewYearFreshRecord(data: AvailabilityData, fill: FillPolicy)
    requires "2024-01-01" !in data
    ensures var shown := Ensure(data, WeekKeys(738885), Catalog(), fill);
      "2024-01-01" in shown && !shown["2024-01-01"].isOffDay && |shown["2024-01-01"].slots| == 16
  {
    NewYear2024();
    NewYear2024Key();
    assert StartOfWeek(738885) == 738885;
    assert WeekKeys(738885)[0] == "2024-01-01";
    EnsureSpec(data, WeekKeys(738885), Catalog(), fill);
    FreshCatalogRecordSize("2024-01-01", fill);
  }

  /** The week view's scenario: slot "9:00" of 1 January 2024, toggled in
      that week's view, still shows the toggled flag after visiting any
      other week and returning. */
  lemma NewYearToggleSurvives(data: AvailabilityData, elsewhere: Date, fill: FillPolicy)
    ensures var shown := Ensure(data, WeekKeys(738885), Catalog(), fill);
      "2024-01-01" in shown &&
      var edited := ToggleSlot(shown, "2024-01-01", "9:00").value;
      var back := Ensure(Ensure(edited, WeekKeys(elsewhere), Catalog(), fill), WeekKeys(738885), Catalog(), fill);
      "2024-01-01" in back && "9:00" in back["2024-01-01"].slots &&
      back["2024-01-01"].slots["9:00"] == !SlotFlag(shown["2024-01-01"], "9:00")
  {
    NewYear2024();
    NewYear2024Key();
    assert StartOfWeek(738885) == 738885;
    assert WeekKeys(738885)[0] == "2024-01-01";
    EditsSurviveNavigation(data, WeekKeys(738885), WeekKeys(elsewhere), "2024-01-01", "9:00", Catalog(), fill);
  }

  /** The component's state. `timeSlots` is rebuilt identically on every
      render, so it is a constant here; `fill` stands for the random draw. */
  class Availability {
    var selectedDate: Date
    var weekDays: seq<Date>
    var availabilityData: AvailabilityData
    const timeSlots: seq<Slot>
    const fill: FillPolicy

    /** After every handler: the shown week is the selected date's window,
        each of its days has a record, and every record has a flag for every
        slot of the catalog. */
    ghost predicate Valid()
      reads this
    {
      && timeSlots == Catalog()
      && weekDays == WeekOf(selectedDate)
      && (forall k :: k in WeekKeys(selectedDate) ==> k in availabilityData)
      && (forall k :: k in availabilityData ==> (set s | s in timeSlots) <= availabilityData[k].slots.Keys)
    }

    /** Mounting the component: the initial state (`useState`) for the date
        `today`, followed by the first run of the effect. */
    constructor (today: Date, fill: FillPolicy)
      ensures Valid()
      ensures selectedDate == today && this.fill == fill
      ensures availabilityData == Ensure(map[], WeekKeys(today), Catalog(), fill)
    {
      var slots := BuildTimeSlots();
      var days, data := DeriveWeek(today, map[], slots, fill);
      EnsureSpec(map[], WeekKeys(today), slots, fill);
      selectedDate := today;
      timeSlots := slots;
      this.fill := fill;
      weekDays := days;
      availabilityData := data;
    }

    /** `handleDateChange` followed by the effect it triggers: the week is
        re-derived and its missing days are added, nothing else changes. A
        date in the week already shown changes no record. */
    method HandleDateChange(newDate: Date)
      requires Valid()
      modifies this
      ensures Valid()
      ensures selectedDate == newDate && weekDays == WeekOf(newDate)
      ensures availabilityData == Ensure(old(availabilityData), WeekKeys(newDate), timeSlots, fill)
      ensures forall k :: k in old(availabilityData) ==> k in availabilityData && availabilityData[k] == old(availabilityData)[k]
      ensures newDate in old(weekDays) ==> availabilityData == old(availabilityData)
    {
      if newDate in weekDays {
        SameWeekSameWindow(selectedDate, newDate);
        EnsurePresentIsIdentity(availabilityData, WeekKeys(newDate), timeSlots, fill);
      }
      EnsureSpec(availabilityData, WeekKeys(newDate), timeSlots, fill);
      selectedDate := newDate;
      var days, data := DeriveWeek(selectedDate, availabilityData, timeSlots, fill);
      weekDays := days;
      availabilityData := data;
    }

    /** `handleOffDayToggle`: negates one day's off-day flag; fails, changing
        nothing, for a day without a record. */
    method HandleOffDayToggle(dayKey: DayKey) returns (outcome: Outcome<Error>)
      requires Valid()
      modifies this`availabilityData
      ensures Valid()
      ensures outcome == if dayKey in old(availabilityData) then Pass else Fail(UnknownKey)
      ensures outcome.Pass? ==> availabilityData == ToggleOffDay(old(availabilityData), dayKey).value
      ensures outcome.Fail? ==> availabilityData == old(availabilityData)
    {
      match ToggleOffDay(availabilityData, dayKey)
      case Success(next) =>
        availabilityData := next;
        outcome := Pass;
      case Failure(e) =>
        outcome := Fail(e);
    }

    /** `handleSlotToggle`: negates the flag of one slot of one day; fails,
        changing nothing, for a day without a record. */
    method HandleSlotToggle(dayKey: DayKey, slot: Slot) returns (outcome: Outcome<Error>)
      requires Valid()
      modifies this`availabilityData
      ensures Valid()
      ensures outcome == if dayKey in old(availabilityData) then Pass else Fail(UnknownKey)
      ensures outcome.Pass? ==> availabilityData == ToggleSlot(old(availabilityData), dayKey, slot).value
      ensures outcome.Fail? ==> availabilityData == old(availabilityData)
    {
      match ToggleSlot(availabilityData, dayKey, slot)
      case Success(next) =>
        availabilityData := next;
        outcome := Pass;
      case Failure(e) =>
        outcome := Fail(e);
    }
  }
}
