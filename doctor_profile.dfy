/** The doctor profile page: the weekdays line built from the availability
    entries, the normalisation and 12-hour rendering of the backend's time
    strings, the hours line, the location line and the star row of the
    average rating. Fetching the doctor and the review eligibility is
    outside the model: the fetched record and availability are parameters. */
module DoctorProfile {
  import opened JsText
  import opened ListOps

  datatype Availability = Availability(dayOfWeek: int, timeSlotId: int, startTime: string, endTime: string)

  // ---------------------------------------------------------------------
  // Available days

  const Days: seq<string> := ["Sunday", "Monday", "Tuesday", "Wednesday", "Thursday", "Friday", "Saturday"]

  /** The position of a weekday name in the week, 7 for anything else. */
  function DayNumber(d: string): (n: int)
    ensures 0 <= n <= 7
    ensures n < 7 ==> Days[n] == d
  {
    if d == "Sunday" then 0 else if d == "Monday" then 1 else if d == "Tuesday" then 2
    else if d == "Wednesday" then 3 else if d == "Thursday" then 4 else if d == "Friday" then 5
    else if d == "Saturday" then 6 else 7
  }

  /** `availableDaySet.has(d)` for `availableDaySet = new Set(availability.map(a
      => days[a.day_of_week]))`: some entry's day number names `d`. An
      out-of-range day number maps to `undefined`, which names no weekday. */
  predicate Listed(avail: seq<Availability>, d: string) {
    exists j :: 0 <= j < |avail| && 0 <= avail[j].dayOfWeek < 7 && Days[avail[j].dayOfWeek] == d
  }

  /** `days.filter(day => availableDaySet.has(day))`. */
  function AvailableDays(avail: seq<Availability>): seq<string>
  {
    Filter(Days, (d: string) => Listed(avail, d))
  }

  /** Each weekday name sits at its own day number. */
  lemma DayNumberOfDays(i: int)
    requires 0 <= i < 7
    ensures DayNumber(Days[i]) == i
  {
    if i < 2 {} else if i < 4 {} else if i < 6 {} else {}
  }

  /** The weekdays line names exactly the days some entry falls on. */
  lemma AvailableDaysMembers(avail: seq<Availability>)
    ensures forall d :: d in AvailableDays(avail) <==> Listed(avail, d)
  {
    forall d ensures d in AvailableDays(avail) <==> Listed(avail, d) {
      if Listed(avail, d) {
        var j :| 0 <= j < |avail| && 0 <= avail[j].dayOfWeek < 7 && Days[avail[j].dayOfWeek] == d;
        FilterHas(Days, (d: string) => Listed(avail, d), avail[j].dayOfWeek);
      } else {
        FilterMembers(Days, (d: string) => Listed(avail, d));
      }
    }
  }

  /** The weekdays line runs from Sunday to Saturday, so no day appears twice. */
  lemma AvailableDaysOrdered(avail: seq<Availability>)
    ensures var r := AvailableDays(avail);
      && |r| <= 7
      && (forall i, j :: 0 <= i < j < |r| ==> DayNumber(r[i]) < DayNumber(r[j]))
      && (forall i, j :: 0 <= i < j < |r| ==> r[i] != r[j])
  {
    var before := (a: string, b: string) => DayNumber(a) < DayNumber(b);
    forall i, j | 0 <= i < j < |Days| ensures before(Days[i], Days[j]) {
      DayNumberOfDays(i);
      DayNumberOfDays(j);
    }
    FilterOrdered(Days, (d: string) => Listed(avail, d), before);
  }

  // ---------------------------------------------------------------------
  // formatTimeDisplay

  /** The repair of short time strings before parsing: "9" becomes "09:00",
      "9:3" becomes "09:30", "9:30" becomes "09:30"; anything else, and
      every string of length 5 or more, is left as it is. */
  function Normalize(t: string): string
  {
    if |t| < 5 then
      if |t| == 1 then "0" + t + ":00"
      else if |t| == 3 && Includes(t, ":") then
        var parts := Split(t, ':');
        "0" + parts[0] + ":" + (if |parts| >= 2 then parts[1] else "undefined") + "0"
      else if |t| == 4 && Includes(t, ":") then "0" + t
      else t
    else t
  }

  /** `${displayHours}:${minutes.toString().padStart(2, '0')} ${period}` for
      the parsed hour and minutes; NaN renders as "NaN", an unparsed hour as
      12 AM. */
  function Display(hour: Option<int>, minutes: Option<int>): string
  {
    var period := if hour.Some? && hour.value >= 12 then "PM" else "AM";
    var displayHours := if hour.Some? then Hour12(hour.value) else 12;
    var mm := if minutes.Some? then PadStart2(IntToString(minutes.value)) else "NaN";
    IntToString(displayHours) + ":" + mm + " " + period
  }

  /** `formatTimeDisplay(timeString)`. When the normalised string has no
      ':', `minutes` is `undefined` and `minutes.toString()` throws, so the
      catch returns the original string. */
  function FormatTimeDisplay(t: string): (r: string)
    ensures r == "" <==> t == ""
  {
    if t == "" then ""
    else
      var parts := Split(Normalize(t), ':');
      if |parts| < 2 then t
      else Display(ParseInt(parts[0]), ParseInt(parts[1]))
  }

  /** The three repairs, and the strings the repair leaves alone. */
  lemma NormalizeCases(t: string)
    ensures |t| == 1 ==> Normalize(t) == "0" + t + ":00"
    ensures |t| == 3 && t[1] == ':' && t[0] != ':' && t[2] != ':' ==> Normalize(t) == "0" + [t[0]] + ":" + [t[2]] + "0"
    ensures |t| == 4 && (exists k :: 0 <= k < 4 && t[k] == ':') ==> Normalize(t) == "0" + t
    ensures |t| >= 5 || (|t| != 1 && forall k :: 0 <= k < |t| ==> t[k] != ':') ==> Normalize(t) == t
  {
    IncludesIff(t, ":");
    if |t| == 3 && t[1] == ':' && t[0] != ':' && t[2] != ':' {
      assert OccursAt(t, ":", 1);
      assert t == [t[0]] + [':'] + [t[2]] + [];
      SplitFirstTwo([t[0]], ':', [t[2]], []);
    }
    if |t| == 4 && (exists k :: 0 <= k < 4 && t[k] == ':') {
      var k :| 0 <= k < 4 && t[k] == ':';
      assert OccursAt(t, ":", k);
    }
    if |t| < 5 && |t| != 1 && forall k :: 0 <= k < |t| ==> t[k] != ':' {
      forall k | 0 <= k <= |t| - 1 ensures !OccursAt(t, ":", k) {
        assert t[k..k + 1][0] == t[k];
      }
    }
  }

  /** The value of a two-digit string is ten times its first digit plus its second. */
  lemma TwoDigitsValue(mm: string)
    requires |mm| == 2 && IsDigit(mm[0]) && IsDigit(mm[1])
    ensures DigitsValue(mm) == DigitValue(mm[0]) * 10 + DigitValue(mm[1])
  {
    assert mm[..1][..0] == [];
    assert DigitsValue(mm[..1]) == DigitValue(mm[0]);
  }

  /** A two-digit number written out and padded to two places gives its two digits. */
  lemma PadTwoDigits(d0: nat, d1: nat)
    requires d0 < 10 && d1 < 10
    ensures PadStart2(IntToString(d0 * 10 + d1)) == [DigitChar(d0), DigitChar(d1)]
  {
    if d0 == 0 {
      PadOneDigit(d1);
    } else {
      TwoDigitString(d0, d1);
    }
  }

  lemma PadOneDigit(d: nat)
    requires d < 10
    ensures PadStart2(IntToString(d)) == [DigitChar(0), DigitChar(d)]
  {
    var s := IntToString(d);
    assert s == [DigitChar(d)];
    assert PadStart2(s) == "0" + s;
  }

  lemma TwoDigitString(d0: nat, d1: nat)
    requires 0 < d0 < 10 && d1 < 10
    ensures IntToString(d0 * 10 + d1) == [DigitChar(d0), DigitChar(d1)]
  {
    var v := d0 * 10 + d1;
    assert v >= 10;
    assert v / 10 == d0 && v % 10 == d1;
    assert NatToString(d0) == [DigitChar(d0)];
    assert NatToString(v) == NatToString(d0) + [DigitChar(d1)];
  }

  lemma DigitCharOfValue(c: char)
    requires IsDigit(c)
    ensures DigitChar(DigitValue(c)) == c
  {
    assert DigitChar(DigitValue(c)) as int == c as int;
  }

  /** The number a pair of digit characters spells, padded to two places,
      gives the pair back. */
  lemma PadDigitChars(c0: char, c1: char, v: nat)
    requires IsDigit(c0) && IsDigit(c1)
    requires v == DigitValue(c0) * 10 + DigitValue(c1)
    ensures PadStart2(IntToString(v)) == [c0, c1]
  {
    PadTwoDigits(DigitValue(c0), DigitValue(c1));
    DigitCharOfValue(c0);
    DigitCharOfValue(c1);
  }

  /** Two decimal digits read back and padded to two places are themselves. */
  lemma TwoDigitsRoundTrip(mm: string)
    requires |mm| == 2 && IsDigit(mm[0]) && IsDigit(mm[1])
    ensures ParseInt(mm) == Some(DigitsValue(mm) as int)
    ensures PadStart2(IntToString(DigitsValue(mm))) == mm
  {
    ParseUnsignedDigits(mm);
    TwoDigitsPadded(mm);
  }

  lemma TwoDigitsPadded(mm: string)
    requires |mm| == 2 && IsDigit(mm[0]) && IsDigit(mm[1])
    ensures PadStart2(IntToString(DigitsValue(mm))) == mm
  {
    TwoDigitsValue(mm);
    PadDigitChars(mm[0], mm[1], DigitsValue(mm));
    assert mm == [mm[0], mm[1]];
  }

  /** When the repaired string splits into at least two parts, the result
      is the display of the first two parts read as numbers. */
  lemma FormatOfParts(t: string, a: string, b: string)
    requires t != ""
    requires var parts := Split(Normalize(t), ':'); |parts| >= 2 && parts[0] == a && parts[1] == b
    ensures FormatTimeDisplay(t) == Display(ParseInt(a), ParseInt(b))
  {
  }

  /** The display of an hour and two minute digits. */
  lemma DisplayTwoDigits(h: int, mm: string)
    requires |mm| == 2 && IsDigit(mm[0]) && IsDigit(mm[1])
    ensures Display(Some(h), ParseInt(mm)) == IntToString(Hour12(h)) + ":" + mm + " " + (if h >= 12 then "PM" else "AM")
  {
    TwoDigitsRoundTrip(mm);
  }

  /** For a well-formed "HH:MM" or "HH:MM:SS" string the result is
      "h:MM AM|PM" with h the 12-hour hour, from 1 to 12, the minutes as
      given, and PM exactly from 12:00 on. */
  lemma FormatWellFormed(hh: string, mm: string, rest: string)
    requires |hh| == 2 && IsDigit(hh[0]) && IsDigit(hh[1])
    requires |mm| == 2 && IsDigit(mm[0]) && IsDigit(mm[1])
    requires rest == [] || rest[0] == ':'
    ensures var h := DigitsValue(hh) as int;
      && FormatTimeDisplay(hh + ":" + mm + rest)
           == IntToString(Hour12(h)) + ":" + mm + " " + (if h >= 12 then "PM" else "AM")
      && 1 <= Hour12(h) <= 12
  {
    var h := DigitsValue(hh) as int;
    FormatWellFormedParts(hh, mm, rest);
    ParseUnsignedDigits(hh);
    assert ParseInt(hh) == Some(h);
    DisplayTwoDigits(h, mm);
    assert h >= 0;
  }

  /** A well-formed string needs no repair and splits into its hour and
      minutes. */
  lemma FormatWellFormedParts(hh: string, mm: string, rest: string)
    requires |hh| == 2 && IsDigit(hh[0]) && IsDigit(hh[1])
    requires |mm| == 2 && IsDigit(mm[0]) && IsDigit(mm[1])
    requires rest == [] || rest[0] == ':'
    ensures FormatTimeDisplay(hh + ":" + mm + rest) == Display(ParseInt(hh), ParseInt(mm))
  {
    var t := hh + ":" + mm + rest;
    assert |t| >= 5;
    assert Normalize(t) == t;
    SplitFirstTwo(hh, ':', mm, rest);
    FormatOfParts(t, hh, mm);
  }

  /** A single-digit hour is padded with '0' before it is read, so "9:30"
      renders like "09:30". */
  lemma FormatShortHour(h: char, mm: string)
    requires IsDigit(h) && h != ':'
    requires |mm| == 2 && IsDigit(mm[0]) && IsDigit(mm[1])
    ensures FormatTimeDisplay([h] + ":" + mm) == FormatTimeDisplay("0" + [h] + ":" + mm)
  {
    var t := [h] + ":" + mm;
    var u := "0" + t;
    assert t[1] == ':';
    assert |t| == 4;
    NormalizeCases(t);
    assert Normalize(t) == u;
    NormalizeCases(u);
    assert Normalize(u) == u;
    assert "0" + [h] + ":" + mm == u;
    assert u == ("0" + [h]) + [':'] + mm + [];
    SplitFirstTwo("0" + [h], ':', mm, []);
  }

  /** A non-empty string with no ':' that the repair leaves alone comes back
      unchanged. */
  lemma FormatWithoutColon(t: string)
    requires t != [] && |t| != 1
    requires forall k :: 0 <= k < |t| ==> t[k] != ':'
    ensures FormatTimeDisplay(t) == t
  {
    NormalizeCases(t);
    SplitNoSep(t, ':');
  }

  // ---------------------------------------------------------------------
  // Hours and location lines

  /** The hours line: the first availability entry's start and end, or
      "Not available" when there is none. */
  function HoursLine(avail: seq<Availability>): string
  {
    if |avail| > 0 then FormatTimeDisplay(avail[0].startTime) + " - " + FormatTimeDisplay(avail[0].endTime)
    else "Not available"
  }

  /** Only the first availability entry is shown. */
  lemma HoursUseFirstEntry(avail: seq<Availability>)
    requires avail != []
    ensures HoursLine(avail) == HoursLine([avail[0]])
    ensures HoursLine([]) == "Not available"
  {
  }

  /** `.filter(Boolean)` over optional texts: the present, non-empty ones,
      in order. */
  function Present(xs: seq<Option<string>>): (r: seq<string>)
    ensures |r| <= |xs|
  {
    if xs == [] then []
    else if xs[0].Some? && xs[0].value != "" then [xs[0].value] + Present(xs[1..])
    else Present(xs[1..])
  }

  /** Exactly the present, non-empty texts survive. */
  lemma {:induction false} PresentMembers(xs: seq<Option<string>>)
    ensures forall x :: x in Present(xs) <==> Some(x) in xs && x != ""
  {
    if xs != [] {
      PresentMembers(xs[1..]);
      assert forall x :: Some(x) in xs <==> xs[0] == Some(x) || Some(x) in xs[1..];
    }
  }

  /** `[location_name, address, city, state].filter(Boolean).join(", ")`. */
  function LocationLine(name: Option<string>, address: Option<string>, city: Option<string>, state: Option<string>): string
  {
    Join(Present([name, address, city, state]), ", ")
  }

  /** One optional text as a list: its value when present and non-empty,
      nothing otherwise. */
  function Part(x: Option<string>): seq<string>
  {
    if x.Some? && x.value != "" then [x.value] else []
  }

  /** A present, non-empty part is listed ahead of the ones after it; a
      missing or empty one is dropped. */
  lemma PresentCons(x: Option<string>, xs: seq<Option<string>>)
    ensures Present([x] + xs) == Part(x) + Present(xs)
  {
    var ys := [x] + xs;
    assert ys != [] && ys[0] == x && ys[1..] == xs;
  }

  /** With all four parts present the line lists them in order. */
  lemma LocationAllPresent(name: string, address: string, city: string, state: string)
    requires name != "" && address != "" && city != "" && state != ""
    ensures LocationLine(Some(name), Some(address), Some(city), Some(state))
      == name + ", " + address + ", " + city + ", " + state
  {
    PresentFour([Some(name), Some(address), Some(city), Some(state)]);
    assert [name] + [address] + [city] + [state] == [name, address, city, state];
    JoinFour(name, address, city, state, ", ");
  }

  /** Whichever parts are missing or empty, the line joins exactly the
      others, in their order; `JoinAppend` says that this puts one ", "
      between neighbours and none at either end, and with no part at all
      the line is empty. */
  lemma LocationSkipsMissing(name: Option<string>, address: Option<string>, city: Option<string>, state: Option<string>)
    ensures LocationLine(name, address, city, state)
      == Join(Part(name) + Part(address) + Part(city) + Part(state), ", ")
    ensures Part(name) + Part(address) + Part(city) + Part(state) == [] ==> LocationLine(name, address, city, state) == ""
  {
    PresentFour([name, address, city, state]);
  }

  lemma PresentFour(xs: seq<Option<string>>)
    requires |xs| == 4
    ensures Present(xs) == Part(xs[0]) + Part(xs[1]) + Part(xs[2]) + Part(xs[3])
  {
    var s1 := xs[3..];
    var s2 := xs[2..];
    var s3 := xs[1..];
    assert s1 == [xs[3]] + [];
    assert s2 == [xs[2]] + s1;
    assert s3 == [xs[1]] + s2;
    assert xs == [xs[0]] + s3;
    PresentCons(xs[3], []);
    PresentCons(xs[2], s1);
    PresentCons(xs[1], s2);
    PresentCons(xs[0], s3);
    var a, b, c, d := Part(xs[0]), Part(xs[1]), Part(xs[2]), Part(xs[3]);
    assert Present(xs) == a + (b + (c + (d + [])));
    assert a + (b + (c + (d + []))) == a + b + c + d;
  }

  // ---------------------------------------------------------------------
  // Star row

  /** Star `k` (1 to 5) is filled when `k <= Math.floor(avg_rating)`. */
  function StarFilled(k: int, avgRating: real): bool
  {
    k <= avgRating.Floor
  }

  /** The five stars of the profile card. */
  function StarRow(avgRating: real): seq<bool>
  {
    seq(5, i requires 0 <= i < 5 => StarFilled(i + 1, avgRating))
  }

  /** The filled stars come first and there are `floor(avg_rating)` of them,
      cut to the range 0..5. */
  lemma StarRowFilledPrefix(avgRating: real)
    ensures |StarRow(avgRating)| == 5
    ensures forall i, j :: 0 <= i < j < 5 && StarRow(avgRating)[j] ==> StarRow(avgRating)[i]
    ensures |Filter(StarRow(avgRating), (b: bool) => b)| == Max(0, Min(5, avgRating.Floor))
  {
    var row := StarRow(avgRating);
    var n := Max(0, Min(5, avgRating.Floor));
    FilledCount(row, n);
  }

  /** A row of `true`s followed by `false`s holds as many `true`s as its prefix. */
  lemma {:induction false} FilledCount(row: seq<bool>, n: int)
    requires 0 <= n <= |row|
    requires forall i :: 0 <= i < |row| ==> (row[i] <==> i < n)
    ensures |Filter(row, (b: bool) => b)| == n
  {
    if row != [] {
      var rest := row[1..];
      if n > 0 {
        FilledCount(rest, n - 1);
      } else {
        FilledCount(rest, 0);
      }
    }
  }
}
