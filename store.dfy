/** The availability state of the week view: a map from day key to the
    day's record, the non-destructive "ensure" merge that adds records for
    newly shown days, the two toggle updaters and the available-slot count. */
module Store {
  import opened Wrappers

  type DayKey = string
  type Slot = string

  /** One day's record: whether it is an off day, and a flag per slot label. */
  datatype DayRecord = DayRecord(isOffDay: bool, slots: map<Slot, bool>)

  /** The whole availability state, keyed by `yyyy-MM-dd` day keys. */
  type AvailabilityData = map<DayKey, DayRecord>

  /** Initial availability of a slot of a freshly created day. The week view
      draws it at random (`Math.random() > 0.3`); here it is any function of
      the day key and the slot. A day key is created at most once, so every
      sequence of draws is some such function. */
  type FillPolicy = (DayKey, Slot) -> bool

  /** Failure of an updater: the day key has no record (the code reads a
      field of `undefined` and throws). */
  datatype Error = UnknownKey

  /** The record created for a day key that has none: a working day with one
      flag per slot of the catalog, filled by the policy. */
  function FreshRecord(key: DayKey, timeSlots: seq<Slot>, fill: FillPolicy): (r: DayRecord)
    ensures !r.isOffDay
    ensures r.slots.Keys == set s | s in timeSlots
    ensures forall s :: s in r.slots ==> r.slots[s] == fill(key, s)
  {
    DayRecord(false, map s | s in timeSlots :: fill(key, s))
  }

  /** The ensure step over a list of day keys, one key after another: a key
      without a record gets a fresh one, a key with a record keeps it. */
  function Ensure(data: AvailabilityData, keys: seq<DayKey>, timeSlots: seq<Slot>, fill: FillPolicy): AvailabilityData
  {
    if keys == [] then data
    else
      var prev := Ensure(data, keys[..|keys| - 1], timeSlots, fill);
      var key := keys[|keys| - 1];
      if key in prev then prev else prev[key := FreshRecord(key, timeSlots, fill)]
  }

  /** What the ensure step guarantees: the requested keys are added and no
      key is removed; a key that had a record keeps it, including the user's
      toggles; a key that had none gets a fresh record. */
  lemma {:induction false} EnsureSpec(data: AvailabilityData, keys: seq<DayKey>, timeSlots: seq<Slot>, fill: FillPolicy)
    ensures var r := Ensure(data, keys, timeSlots, fill);
      && r.Keys == data.Keys + (set k | k in keys)
      && (forall k :: k in data ==> r[k] == data[k])
      && (forall k :: k in r && k !in data ==> r[k] == FreshRecord(k, timeSlots, fill))
  {
    if keys != [] {
      var init := keys[..|keys| - 1];
      EnsureSpec(data, init, timeSlots, fill);
      assert (set k | k in keys) == (set k | k in init) + {keys[|keys| - 1]};
    }
  }

  /** The ensure step equals its declarative reading: every key that had a
      record or was requested, mapped to its old record if it had one and to
      a fresh record otherwise. */
  lemma EnsureIsMerge(data: AvailabilityData, keys: seq<DayKey>, timeSlots: seq<Slot>, fill: FillPolicy)
    ensures Ensure(data, keys, timeSlots, fill)
      == map k | k in data.Keys + (set k | k in keys) ::
           if k in data then data[k] else FreshRecord(k, timeSlots, fill)
  {
    EnsureSpec(data, keys, timeSlots, fill);
  }

  /** Ensuring keys that are all present already changes nothing. */
  lemma EnsurePresentIsIdentity(data: AvailabilityData, keys: seq<DayKey>, timeSlots: seq<Slot>, fill: FillPolicy)
    requires forall k :: k in keys ==> k in data
    ensures Ensure(data, keys, timeSlots, fill) == data
  {
    EnsureSpec(data, keys, timeSlots, fill);
  }

  /** Ensuring the same keys a second time changes nothing. */
  lemma EnsureIdempotent(data: AvailabilityData, keys: seq<DayKey>, timeSlots: seq<Slot>, fill: FillPolicy)
    ensures var once := Ensure(data, keys, timeSlots, fill);
      Ensure(once, keys, timeSlots, fill) == once
  {
    EnsureSpec(data, keys, timeSlots, fill);
    EnsurePresentIsIdentity(Ensure(data, keys, timeSlots, fill), keys, timeSlots, fill);
  }

  // ---------------------------------------------------------------------
  // Updaters

  /** The off-day toggle updater: negates `isOffDay` of one day. */
  function ToggleOffDay(data: AvailabilityData, key: DayKey): (r: Result<AvailabilityData, Error>)
    ensures r.Success? <==> key in data
    ensures r.Success? ==> r.value.Keys == data.Keys
    ensures r.Success? ==> r.value[key].isOffDay == !data[key].isOffDay && r.value[key].slots == data[key].slots
    ensures r.Success? ==> forall k :: k in data && k != key ==> r.value[k] == data[k]
  {
    if key !in data then Failure(UnknownKey)
    else Success(data[key := data[key].(isOffDay := !data[key].isOffDay)])
  }

  /** The current flag of `slot` as the code reads it: a slot absent from
      the record reads as `undefined`, which is falsy. */
  function SlotFlag(rec: DayRecord, slot: Slot): bool
  {
    slot in rec.slots && rec.slots[slot]
  }

  /** The slot toggle updater: sets the flag of one slot of one day to the
      negation of its current reading. A slot the record lacks reads as
      `undefined`, so the toggle adds it as available. */
  function ToggleSlot(data: AvailabilityData, key: DayKey, slot: Slot): (r: Result<AvailabilityData, Error>)
    ensures r.Success? <==> key in data
    ensures r.Success? ==> r.value.Keys == data.Keys
    ensures r.Success? ==> r.value[key].isOffDay == data[key].isOffDay
    ensures r.Success? ==> r.value[key].slots.Keys == data[key].slots.Keys + {slot}
    ensures r.Success? ==> r.value[key].slots[slot] == !SlotFlag(data[key], slot)
    ensures r.Success? ==> forall s :: s in data[key].slots && s != slot ==> r.value[key].slots[s] == data[key].slots[s]
    ensures r.Success? ==> forall k :: k in data && k != key ==> r.value[k] == data[k]
  {
    if key !in data then Failure(UnknownKey)
    else
      var rec := data[key];
      Success(data[key := rec.(slots := rec.slots[slot := !SlotFlag(rec, slot)])])
  }

  /** Toggling the off-day flag twice restores the state. */
  lemma ToggleOffDayInvolution(data: AvailabilityData, key: DayKey)
    requires key in data
    ensures ToggleOffDay(ToggleOffDay(data, key).value, key) == Success(data)
  {
    var once := ToggleOffDay(data, key).value;
    assert once[key := once[key].(isOffDay := !once[key].isOffDay)] == data;
  }

  /** Toggling a slot twice restores the state when the day has that slot;
      a slot the day lacked is left behind as unavailable. */
  lemma ToggleSlotInvolution(data: AvailabilityData, key: DayKey, slot: Slot)
    requires key in data
    ensures var rec := data[key];
      ToggleSlot(ToggleSlot(data, key, slot).value, key, slot)
        == Success(if slot in rec.slots then data else data[key := rec.(slots := rec.slots[slot := false])])
  {
    var rec := data[key];
    var once := ToggleSlot(data, key, slot).value;
    var twice := ToggleSlot(once, key, slot).value;
    if slot in rec.slots {
      assert twice[key].slots == rec.slots;
      assert twice == data;
    } else {
      assert twice[key].slots == rec.slots[slot := false];
      assert twice[key] == rec.(slots := rec.slots[slot := false]);
      assert twice == data[key := rec.(slots := rec.slots[slot := false])];
    }
  }

  /** Once the keys of a shown week are ensured and one of its days edited,
      ensuring any other keys and then the shown week's keys again keeps the
      edit: the edited record survives both ensure steps unchanged, and the
      second one changes nothing at all. */
  lemma EditsSurviveNavigation(data: AvailabilityData, shownKeys: seq<DayKey>, otherKeys: seq<DayKey>,
                               key: DayKey, slot: Slot, timeSlots: seq<Slot>, fill: FillPolicy)
    requires key in shownKeys
    ensures var shown := Ensure(data, shownKeys, timeSlots, fill);
      key in shown &&
      var edited := ToggleSlot(shown, key, slot).value;
      var away := Ensure(edited, otherKeys, timeSlots, fill);
      Ensure(away, shownKeys, timeSlots, fill) == away && key in away && away[key] == edited[key]
  {
    var shown := Ensure(data, shownKeys, timeSlots, fill);
    EnsureSpec(data, shownKeys, timeSlots, fill);
    var edited := ToggleSlot(shown, key, slot).value;
    var away := Ensure(edited, otherKeys, timeSlots, fill);
    EnsureSpec(edited, otherKeys, timeSlots, fill);
    EnsurePresentIsIdentity(away, shownKeys, timeSlots, fill);
  }

  // ---------------------------------------------------------------------
  // Counting

  /** The slots of a day flagged available. */
  function AvailableSlots(slots: map<Slot, bool>): set<Slot>
  {
    set s | s in slots && slots[s]
  }

  /** `countAvailableSlots`: 0 for a day without a record, otherwise the
      number of its slots flagged available, whether or not it is an off day. */
  function CountAvailableSlots(data: AvailabilityData, key: DayKey): (n: nat)
    ensures key !in data ==> n == 0
    ensures key in data ==> n <= |data[key].slots|
  {
    if key !in data then 0
    else
      SubsetCardinality(AvailableSlots(data[key].slots), data[key].slots.Keys);
      |AvailableSlots(data[key].slots)|
  }

  /** A subset is no larger than its superset. */
  lemma {:induction false} SubsetCardinality<T>(a: set<T>, b: set<T>)
    requires a <= b
    ensures |a| <= |b|
    decreases b
  {
    if a != {} {
      var x :| x in a;
      SubsetCardinality(a - {x}, b - {x});
    }
  }

  /** The count of a freshly created day is the number of catalog slots the
      policy marks available, at most the catalog's size. */
  lemma FreshRecordCount(key: DayKey, timeSlots: seq<Slot>, fill: FillPolicy)
    ensures var data := map[key := FreshRecord(key, timeSlots, fill)];
      CountAvailableSlots(data, key) == |set s | s in timeSlots && fill(key, s)|
      && CountAvailableSlots(data, key) <= |timeSlots|
  {
    var rec := FreshRecord(key, timeSlots, fill);
    assert AvailableSlots(rec.slots) == set s | s in timeSlots && fill(key, s);
    SetOfSeqCardinality(timeSlots);
    SubsetCardinality(AvailableSlots(rec.slots), set s | s in timeSlots);
  }

  /** The set of a sequence's elements is no larger than the sequence. */
  lemma {:induction false} SetOfSeqCardinality<T>(xs: seq<T>)
    ensures |set x | x in xs| <= |xs|
  {
    if xs != [] {
      SetOfSeqCardinality(xs[1..]);
      assert (set x | x in xs) == (set x | x in xs[1..]) + {xs[0]};
    }
  }

  /** A sequence without repeated elements has as many distinct elements as
      entries. */
  lemma {:induction false} DistinctSeqCardinality<T>(xs: seq<T>)
    requires forall i, j :: 0 <= i < j < |xs| ==> xs[i] != xs[j]
    ensures |set x | x in xs| == |xs|
  {
    if xs != [] {
      DistinctSeqCardinality(xs[1..]);
      assert (set x | x in xs) == (set x | x in xs[1..]) + {xs[0]};
      assert xs[0] !in xs[1..];
    }
  }

  /** The off-day toggle leaves every day's count as it was. */
  lemma ToggleOffDayKeepsCounts(data: AvailabilityData, key: DayKey, other: DayKey)
    requires key in data
    ensures CountAvailableSlots(ToggleOffDay(data, key).value, other) == CountAvailableSlots(data, other)
  {
  }

  /** A slot toggle changes the day's count by exactly one: down if the slot
      was available, up otherwise. Other days' counts are unchanged. */
  lemma ToggleSlotChangesCountByOne(data: AvailabilityData, key: DayKey, slot: Slot, other: DayKey)
    requires key in data
    ensures var after := ToggleSlot(data, key, slot).value;
      CountAvailableSlots(after, key)
        == if SlotFlag(data[key], slot) then CountAvailableSlots(data, key) - 1
           else CountAvailableSlots(data, key) + 1
    ensures other != key ==>
      CountAvailableSlots(ToggleSlot(data, key, slot).value, other) == CountAvailableSlots(data, other)
  {
    var before := AvailableSlots(data[key].slots);
    var after := AvailableSlots(ToggleSlot(data, key, slot).value[key].slots);
    if SlotFlag(data[key], slot) {
      assert after == before - {slot};
    } else {
      assert after == before + {slot};
    }
  }
}
