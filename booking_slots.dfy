/** The booking page of one doctor: the 24-hour to 12-hour time helper, the
    fixed morning and afternoon grids onto which the backend's slots for the
    selected date are mapped, the slot picker and the guard in front of the
    "Continue" button. Fetching the doctor, the locations and the
    availability, and the navigation to the confirmation page, are outside
    the model: the fetched dates are a parameter. */
module BookingSlots {
  import opened JsText
  import opened ListOps

  // ---------------------------------------------------------------------
  // formatTime

  /** `formatTime(time24)`: split at ':', parse the hour text in base 10, and
      render `${hour12}:${minutes} ${ampm}`. An hour text with no digits
      parses to NaN, which is neither `>= 12` nor truthy after `% 12`, so it
      renders as 12 AM; a missing minutes part renders as "undefined". */
  function FormatTime(time24: string): string
  {
    var parts := Split(time24, ':');
    Render(ParseInt(parts[0]), if |parts| >= 2 then parts[1] else "undefined")
  }

  /** The template `${hour12}:${minutes} ${ampm}` for a parsed hour. */
  function Render(hour: Option<int>, minutes: string): string
  {
    var ampm := if hour.Some? && hour.value >= 12 then "PM" else "AM";
    var hour12 := if hour.Some? then Hour12(hour.value) else 12;
    IntToString(hour12) + ":" + minutes + " " + ampm
  }

  /** The text of an integer holds no ':'. */
  lemma IntToStringNoColon(n: int)
    ensures forall i :: 0 <= i < |IntToString(n)| ==> IntToString(n)[i] != ':'
  {
    var ds := NatToString(if n < 0 then -n else n);
    assert forall i :: 0 <= i < |ds| ==> IsDigit(ds[i]);
  }

  /** For an hour written as an integer and a minutes text, optionally
      followed by ":seconds", the result is the 12-hour hour, the minutes
      verbatim, and PM exactly when the hour is 12 or more. */
  lemma FormatTimeOfHour(hour: int, m: string, rest: string)
    requires forall i :: 0 <= i < |m| ==> m[i] != ':'
    requires rest == [] || rest[0] == ':'
    ensures FormatTime(IntToString(hour) + ":" + m + rest)
      == IntToString(Hour12(hour)) + ":" + m + " " + (if hour >= 12 then "PM" else "AM")
    ensures FormatTime(IntToString(hour) + ":" + m + rest) == Render(Some(hour), m)
  {
    IntToStringNoColon(hour);
    SplitFirstTwo(IntToString(hour), ':', m, rest);
    ParseIntToString(hour);
  }

  /** An hour text without digits renders as 12 AM; the minutes stay verbatim. */
  lemma FormatTimeUnparsedHour(h: string, m: string)
    requires forall i :: 0 <= i < |h| ==> h[i] != ':'
    requires forall i :: 0 <= i < |m| ==> m[i] != ':'
    requires ParseInt(h).None?
    ensures FormatTime(h + ":" + m) == "12:" + m + " AM"
  {
    SplitFirstTwo(h, ':', m, []);
    assert h + ":" + m + [] == h + ":" + m;
    TwelveText();
  }

  lemma TwelveText()
    ensures IntToString(12) == "12"
  {
    assert NatToString(12) == NatToString(1) + [DigitChar(2)];
  }

  /** A text without ':' has no minutes part. */
  lemma FormatTimeNoMinutes(t: string)
    requires forall i :: 0 <= i < |t| ==> t[i] != ':'
    ensures FormatTime(t) == Render(ParseInt(t), "undefined")
  {
    SplitNoSep(t, ':');
  }

  // ---------------------------------------------------------------------
  // The slot grids

  datatype TimeSlot = TimeSlot(id: int, startTime: string, endTime: string, isAvailable: bool)

  datatype DateSlot = DateSlot(date: string, day: string, month: string, fullDate: string, timeSlots: seq<TimeSlot>)

  const MorningCatalog: seq<string> :=
    ["9:00 AM", "9:30 AM", "10:00 AM", "10:30 AM", "11:00 AM", "11:30 AM", "12:00 PM", "12:30 PM"]

  const AfternoonCatalog: seq<string> :=
    ["1:00 PM", "1:30 PM", "2:00 PM", "2:30 PM", "3:00 PM", "3:30 PM", "4:00 PM", "4:30 PM"]

  /** `HalfHour(h, i)` is the 24-hour text of hour `h` with the minutes of
      the `i`-th half hour: `"9:00"` for `(9, 0)`, `"9:30"` for `(9, 1)`. */
  function HalfHour(hour: int, i: nat): string
  {
    IntToString(hour) + ":" + Minutes(i)
  }

  /** The two catalogs are the 12-hour renderings of the half hours from
      9:00 to 12:30 and from 13:00 to 16:30. */
  lemma CatalogsAreFormattedHalfHours()
    ensures |MorningCatalog| == 8 && |AfternoonCatalog| == 8
    ensures forall i :: 0 <= i < 8 ==> MorningCatalog[i] == FormatTime(HalfHour(9 + i / 2, i))
    ensures forall i :: 0 <= i < 8 ==> AfternoonCatalog[i] == FormatTime(HalfHour(13 + i / 2, i))
  {
    forall i | 0 <= i < 8 ensures MorningCatalog[i] == FormatTime(HalfHour(9 + i / 2, i)) {
      HalfHourRendered(9 + i / 2, i);
      MorningEntry(i);
    }
    forall i | 0 <= i < 8 ensures AfternoonCatalog[i] == FormatTime(HalfHour(13 + i / 2, i)) {
      HalfHourRendered(13 + i / 2, i);
      AfternoonEntry(i);
    }
  }

  /** The minutes of the `i`-th half hour. */
  function Minutes(i: nat): string { if i % 2 == 0 then "00" else "30" }

  /** `formatTime` of a half hour is the template for its hour and minutes. */
  lemma HalfHourRendered(hour: int, i: nat)
    ensures FormatTime(HalfHour(hour, i)) == Render(Some(hour), Minutes(i))
  {
    MinutesNoColon(i);
    FormatTimeOfHour(hour, Minutes(i), []);
    assert HalfHour(hour, i) == IntToString(hour) + ":" + Minutes(i) + [];
  }

  lemma MinutesNoColon(i: nat)
    ensures forall j :: 0 <= j < |Minutes(i)| ==> Minutes(i)[j] != ':'
  {
  }

  /** The catalog entries, against the template. */
  lemma MorningEntry(i: nat)
    requires i < 8
    ensures MorningCatalog[i] == Render(Some(9 + i / 2), Minutes(i))
  {
    if i < 4 { MorningBefore11(i); } else { MorningFrom11(i); }
  }

  lemma AfternoonEntry(i: nat)
    requires i < 8
    ensures AfternoonCatalog[i] == Render(Some(13 + i / 2), Minutes(i))
  {
    if i < 4 { AfternoonBefore15(i); } else { AfternoonFrom15(i); }
  }

  lemma MorningBefore11(i: nat)
    requires 0 <= i < 4
    ensures MorningCatalog[i] == Render(Some(9 + i / 2), Minutes(i))
  {
    if i < 2 {
      HourText(9);
      HalfHourEntry(MorningCatalog, 9, 0, "9", "AM", i);
    } else {
      HourText(10);
      HalfHourEntry(MorningCatalog, 9, 1, "10", "AM", i);
    }
  }

  lemma MorningFrom11(i: nat)
    requires 4 <= i < 8
    ensures MorningCatalog[i] == Render(Some(9 + i / 2), Minutes(i))
  {
    if i < 6 {
      HourText(11);
      HalfHourEntry(MorningCatalog, 9, 2, "11", "AM", i);
    } else {
      HourText(12);
      HalfHourEntry(MorningCatalog, 9, 3, "12", "PM", i);
    }
  }

  lemma AfternoonBefore15(i: nat)
    requires 0 <= i < 4
    ensures AfternoonCatalog[i] == Render(Some(13 + i / 2), Minutes(i))
  {
    if i < 2 {
      HourText(13);
      HalfHourEntry(AfternoonCatalog, 13, 0, "1", "PM", i);
    } else {
      HourText(14);
      HalfHourEntry(AfternoonCatalog, 13, 1, "2", "PM", i);
    }
  }

  lemma AfternoonFrom15(i: nat)
    requires 4 <= i < 8
    ensures AfternoonCatalog[i] == Render(Some(13 + i / 2), Minutes(i))
  {
    if i < 6 {
      HourText(15);
      HalfHourEntry(AfternoonCatalog, 13, 2, "3", "PM", i);
    } else {
      HourText(16);
      HalfHourEntry(AfternoonCatalog, 13, 3, "4", "PM", i);
    }
  }

  /** The two catalog entries of the `k`-th hour from `start`, spelled out,
      are the template's renderings of its two half hours. */
  lemma HalfHourEntry(cat: seq<string>, start: int, k: nat, digits: string, ampm: string, i: nat)
    requires i / 2 == k && 2 * k + 1 < |cat|
    requires IntToString(Hour12(start + k)) == digits
    requires ampm == (if start + k >= 12 then "PM" else "AM")
    requires cat[2 * k] == digits + ":" + "00" + " " + ampm
    requires cat[2 * k + 1] == digits + ":" + "30" + " " + ampm
    ensures cat[i] == Render(Some(start + i / 2), Minutes(i))
  {
    EntryText(start + k, digits, Minutes(i), ampm, cat[i]);
  }

  /** A catalog text spelled out as the template's pieces is the template. */
  lemma EntryText(h: int, digits: string, m: string, ampm: string, e: string)
    requires IntToString(Hour12(h)) == digits
    requires ampm == (if h >= 12 then "PM" else "AM")
    requires e == digits + ":" + m + " " + ampm
    ensures e == Render(Some(h), m)
  {
  }

  /** The 12-hour text of the hours the catalogs cover. */
  function HourDigits(h: int): string
  {
    if h == 9 then "9" else if h == 10 then "10" else if h == 11 then "11"
    else if h == 12 then "12" else if h == 13 then "1" else if h == 14 then "2"
    else if h == 15 then "3" else "4"
  }

  lemma HourText(h: int)
    requires 9 <= h <= 16
    ensures IntToString(Hour12(h)) == HourDigits(h)
  {
    if h <= 12 {
      assert Hour12(h) == h;
      if h >= 10 {
        assert NatToString(h) == NatToString(1) + [DigitChar(h - 10)];
      }
    } else {
      assert Hour12(h) == h - 12;
    }
  }

  /** `dates[selectedDate]?.timeSlots || []`. */
  function CurrentTimeSlots(dates: seq<DateSlot>, selectedDate: int): seq<TimeSlot>
  {
    if 0 <= selectedDate < |dates| then dates[selectedDate].timeSlots else []
  }

  /** `j` is the first slot whose start time is `t`. */
  predicate FirstMatchAt(slots: seq<TimeSlot>, t: string, j: int) {
    && 0 <= j < |slots|
    && slots[j].startTime == t
    && forall k :: 0 <= k < j ==> slots[k].startTime != t
  }

  /** `slots.find(ts => ts.startTime === t)`. */
  function FindSlot(slots: seq<TimeSlot>, t: string): (r: Option<TimeSlot>)
    ensures r.None? <==> forall j :: 0 <= j < |slots| ==> slots[j].startTime != t
    ensures r.Some? ==> exists j :: FirstMatchAt(slots, t, j) && slots[j] == r.value
  {
    if slots == [] then None
    else if slots[0].startTime == t then
      assert FirstMatchAt(slots, t, 0);
      Some(slots[0])
    else
      var r := FindSlot(slots[1..], t);
      assert r.Some? ==> exists j :: FirstMatchAt(slots, t, j) && slots[j] == r.value by {
        if r.Some? {
          var j :| FirstMatchAt(slots[1..], t, j) && slots[1..][j] == r.value;
          assert FirstMatchAt(slots, t, j + 1);
        }
      }
      assert r.None? ==> forall j :: 0 <= j < |slots| ==> slots[j].startTime != t by {
        if r.None? {
          forall j | 1 <= j < |slots| ensures slots[j].startTime != t {
            assert slots[j] == slots[1..][j - 1];
          }
        }
      }
      r
  }

  /** One grid entry: the catalog time, with the id, end time and availability
      of the first backend slot starting at that time. `id || -1` and
      `endTime || time` fall back on a falsy value, so a backend id of 0 also
      becomes -1 and an empty end time becomes the catalog time. */
  function GridEntry(t: string, slots: seq<TimeSlot>): (e: TimeSlot)
    ensures e.startTime == t
    ensures (forall j :: 0 <= j < |slots| ==> slots[j].startTime != t) ==> e == TimeSlot(-1, t, t, false)
    ensures forall j :: FirstMatchAt(slots, t, j) ==>
      && e.id == (if slots[j].id != 0 then slots[j].id else -1)
      && e.endTime == (if slots[j].endTime != "" then slots[j].endTime else t)
      && e.isAvailable == slots[j].isAvailable
  {
    var m := FindSlot(slots, t);
    TimeSlot(
      if m.Some? && m.value.id != 0 then m.value.id else -1,
      t,
      if m.Some? && m.value.endTime != "" then m.value.endTime else t,
      m.Some? && m.value.isAvailable)
  }

  /** `catalog.map(slot => ...)`. */
  function Grid(catalog: seq<string>, slots: seq<TimeSlot>): seq<TimeSlot>
  {
    seq(|catalog|, i requires 0 <= i < |catalog| => GridEntry(catalog[i], slots))
  }

  function MorningSlots(dates: seq<DateSlot>, selectedDate: int): seq<TimeSlot>
  {
    Grid(MorningCatalog, CurrentTimeSlots(dates, selectedDate))
  }

  function AfternoonSlots(dates: seq<DateSlot>, selectedDate: int): seq<TimeSlot>
  {
    Grid(AfternoonCatalog, CurrentTimeSlots(dates, selectedDate))
  }

  /** Whatever the backend returns, each grid has the eight catalog times in
      catalog order, and an entry is available exactly when the first
      backend slot with its start time is available. */
  lemma GridsFollowCatalog(dates: seq<DateSlot>, selectedDate: int)
    ensures var g := MorningSlots(dates, selectedDate); var slots := CurrentTimeSlots(dates, selectedDate);
      && |g| == 8
      && (forall i :: 0 <= i < 8 ==> g[i].startTime == MorningCatalog[i])
      && (forall i :: 0 <= i < 8 ==>
            (g[i].isAvailable <==> exists j :: FirstMatchAt(slots, MorningCatalog[i], j) && slots[j].isAvailable))
    ensures var g := AfternoonSlots(dates, selectedDate); var slots := CurrentTimeSlots(dates, selectedDate);
      && |g| == 8
      && (forall i :: 0 <= i < 8 ==> g[i].startTime == AfternoonCatalog[i])
      && (forall i :: 0 <= i < 8 ==>
            (g[i].isAvailable <==> exists j :: FirstMatchAt(slots, AfternoonCatalog[i], j) && slots[j].isAvailable))
  {
    var slots := CurrentTimeSlots(dates, selectedDate);
    forall t ensures GridEntry(t, slots).isAvailable <==> exists j :: FirstMatchAt(slots, t, j) && slots[j].isAvailable {
      if GridEntry(t, slots).isAvailable {
        var m := FindSlot(slots, t);
        var j :| FirstMatchAt(slots, t, j) && slots[j] == m.value;
      }
    }
  }

  /** "N Slots Available": the number of available entries of a grid. */
  function AvailableCount(grid: seq<TimeSlot>): nat
  {
    |Filter(grid, (e: TimeSlot) => e.isAvailable)|
  }

  /** The count never exceeds the grid's eight entries, is eight exactly when
      every entry is available, and zero exactly when none is. */
  lemma AvailableCountBounds(grid: seq<TimeSlot>)
    requires |grid| == 8
    ensures AvailableCount(grid) <= 8
    ensures AvailableCount(grid) == 8 <==> forall i :: 0 <= i < 8 ==> grid[i].isAvailable
    ensures AvailableCount(grid) == 0 <==> forall i :: 0 <= i < 8 ==> !grid[i].isAvailable
  {
    FilterLength(grid, (e: TimeSlot) => e.isAvailable);
  }

  /** A selected date with no entry in `dates` leaves every entry of both
      grids unavailable. */
  lemma OutOfRangeDateHasNoSlots(dates: seq<DateSlot>, selectedDate: int)
    requires !(0 <= selectedDate < |dates|)
    ensures forall i :: 0 <= i < 8 ==> MorningSlots(dates, selectedDate)[i] == TimeSlot(-1, MorningCatalog[i], MorningCatalog[i], false)
    ensures forall i :: 0 <= i < 8 ==> AfternoonSlots(dates, selectedDate)[i] == TimeSlot(-1, AfternoonCatalog[i], AfternoonCatalog[i], false)
    ensures AvailableCount(MorningSlots(dates, selectedDate)) == 0
    ensures AvailableCount(AfternoonSlots(dates, selectedDate)) == 0
  {
    AvailableCountBounds(MorningSlots(dates, selectedDate));
    AvailableCountBounds(AfternoonSlots(dates, selectedDate));
  }

  // ---------------------------------------------------------------------
  // Selection and the continue guard

  /** `slot.isAvailable && setSelectedTimeSlot(slot.id)`: a click on an
      unavailable entry (whose button is also disabled) changes nothing. */
  function Click(selected: Option<int>, entry: TimeSlot): Option<int>
  {
    if entry.isAvailable then Some(entry.id) else selected
  }

  /** The selection after a run of clicks starting from `selected`. */
  function Clicks(selected: Option<int>, clicked: seq<TimeSlot>): Option<int>
    decreases |clicked|
  {
    if clicked == [] then selected else Clicks(Click(selected, clicked[0]), clicked[1..])
  }

  /** Changing the date clears the selection; afterwards any run of clicks
      selects nothing or the id of an available entry that was clicked. */
  lemma {:induction false} SelectionIsAvailable(selected: Option<int>, clicked: seq<TimeSlot>)
    decreases |clicked|
    ensures var r := Clicks(selected, clicked);
      r == selected || exists e :: e in clicked && e.isAvailable && r == Some(e.id)
    ensures Clicks(None, clicked) == None
      || exists e :: e in clicked && e.isAvailable && Clicks(None, clicked) == Some(e.id)
  {
    if clicked != [] {
      SelectionIsAvailable(Click(selected, clicked[0]), clicked[1..]);
      SelectionIsAvailable(Click(None, clicked[0]), clicked[1..]);
      assert forall e :: e in clicked[1..] ==> e in clicked;
    }
  }

  const SelectSlotAndLocation := "Please select a time slot and location"

  /** The guard of `handleContinue`: `!selectedTimeSlot` is true for no
      selection and also for the id 0. */
  function ContinueError(selected: Option<int>, hasDoctor: bool, hasLocation: bool): (err: Option<string>)
    ensures err.Some? <==> selected.None? || selected == Some(0) || !hasDoctor || !hasLocation
    ensures err.Some? ==> err.value == SelectSlotAndLocation
  {
    if selected.None? || selected.value == 0 || !hasDoctor || !hasLocation then Some(SelectSlotAndLocation)
    else None
  }

  /** With a doctor and a location loaded, continuing succeeds after a click
      on an available entry with a non-zero id. */
  lemma ContinueAfterClick(selected: Option<int>, entry: TimeSlot)
    requires entry.isAvailable && entry.id != 0
    ensures ContinueError(Click(selected, entry), true, true) == None
  {
  }
}
