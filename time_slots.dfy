/** The fixed catalog of half-hour slot labels of a working day:
    "9:00", "9:30", "10:00", … "16:30". */
module TimeSlots {
  import opened Numerals
  import opened Wrappers

  /** First working hour; the catalog's loop runs while the hour is below `END_HOUR`. */
  const START_HOUR: nat := 9
  const END_HOUR: nat := 17

  /** Two slots per hour. */
  const SLOT_COUNT: nat := 2 * (END_HOUR - START_HOUR)

  /** The label of the slot at the full hour (`"h:00"`) or at the half hour (`"h:30"`). */
  function SlotLabel(hour: nat, half: bool): string
  {
    Decimal(hour) + (if half then ":30" else ":00")
  }

  /** Reads a slot label back into its hour and half-hour flag; `None` for a
      string that is not `<digits>:00` or `<digits>:30`. */
  function ParseSlotLabel(s: string): Option<(nat, bool)>
  {
    if |s| < 4 || s[|s| - 3] != ':' then None
    else
      var minutes := s[|s| - 2..];
      if minutes != "00" && minutes != "30" then None
      else Some((ParseDecimal(s[..|s| - 3]), minutes == "30"))
  }

  /** Reading a label gives back the hour and the half that made it. */
  lemma SlotLabelRoundTrip(hour: nat, half: bool)
    ensures ParseSlotLabel(SlotLabel(hour, half)) == Some((hour, half))
  {
    var digits, suffix := Decimal(hour), if half then ":30" else ":00";
    var s := digits + suffix;
    assert |s| == |digits| + 3;
    assert s[..|s| - 3] == digits;
    assert s[|s| - 3] == ':';
    assert s[|s| - 2..] == suffix[1..];
    ParseDecimalOfDecimal(hour);
  }

  /** Two labels are equal exactly when they name the same hour and half. */
  lemma SlotLabelInjective(h1: nat, half1: bool, h2: nat, half2: bool)
    ensures SlotLabel(h1, half1) == SlotLabel(h2, half2) <==> h1 == h2 && half1 == half2
  {
    SlotLabelRoundTrip(h1, half1);
    SlotLabelRoundTrip(h2, half2);
  }

  /** The label at position `i` of the catalog: hour START_HOUR + i / 2, on
      the half hour when `i` is odd. */
  function SlotAt(i: nat): string
  {
    SlotLabel(START_HOUR + i / 2, i % 2 == 1)
  }

  /** The catalog as a whole. */
  function Catalog(): (slots: seq<string>)
    ensures |slots| == SLOT_COUNT
  {
    seq(SLOT_COUNT, i requires 0 <= i => SlotAt(i))
  }

  /** The loop that builds the label list, pushing `"h:00"` then `"h:30"` for each hour. */
  method BuildTimeSlots() returns (timeSlots: seq<string>)
    ensures timeSlots == Catalog()
  {
    timeSlots := [];
    var hour := START_HOUR;
    while hour < END_HOUR
      invariant START_HOUR <= hour <= END_HOUR
      invariant |timeSlots| == 2 * (hour - START_HOUR)
      invariant forall i :: 0 <= i < |timeSlots| ==> timeSlots[i] == SlotAt(i)
    {
      timeSlots := timeSlots + [SlotLabel(hour, false)];
      timeSlots := timeSlots + [SlotLabel(hour, true)];
      hour := hour + 1;
    }
  }

  /** The catalog has 16 entries, "9:00" first and "16:30" last, and for each
      working hour its ":00" label is immediately followed by its ":30" label. */
  lemma CatalogShape()
    ensures |Catalog()| == 16
    ensures Catalog()[0] == "9:00" && Catalog()[15] == "16:30"
    ensures forall h :: START_HOUR <= h < END_HOUR ==>
      Catalog()[2 * (h - START_HOUR)] == SlotLabel(h, false) &&
      Catalog()[2 * (h - START_HOUR) + 1] == SlotLabel(h, true)
  {
    FirstAndLastLabels();
    forall h | START_HOUR <= h < END_HOUR
      ensures Catalog()[2 * (h - START_HOUR)] == SlotLabel(h, false)
      ensures Catalog()[2 * (h - START_HOUR) + 1] == SlotLabel(h, true)
    {
      var i := 2 * (h - START_HOUR);
      assert i / 2 == h - START_HOUR && (i + 1) / 2 == h - START_HOUR;
    }
  }

  /** The concrete texts of the first and last labels. */
  lemma FirstAndLastLabels()
    ensures SlotAt(0) == "9:00" && SlotAt(15) == "16:30"
  {
    assert Decimal(9) == "9";
    assert Decimal(1) == "1";
    assert Decimal(16) == "16";
  }

  /** No label occurs twice in the catalog. */
  lemma CatalogNoDuplicates()
    ensures forall i, j :: 0 <= i < j < |Catalog()| ==> Catalog()[i] != Catalog()[j]
  {
    forall i, j | 0 <= i < j < |Catalog()|
      ensures Catalog()[i] != Catalog()[j]
    {
      assert Catalog()[i] == SlotAt(i) && Catalog()[j] == SlotAt(j);
      SlotLabelInjective(START_HOUR + i / 2, i % 2 == 1, START_HOUR + j / 2, j % 2 == 1);
    }
  }
}
