/** The times and dates a booking may choose.

    The availability handlers of server.js and mainServer.js offer one slot
    per hour from 9 AM to 9 PM and drop the times the user already booked
    on that date. The booking page, schedule.js, offers quarter-hour slots
    over the same span, drops the slots already past when the chosen date
    is today, and lets dates start three working days ahead. */
module Slots {
  import opened Common
  import opened Decimal
  import opened ClockLabels
  import opened Calendar

  const FirstHour: nat := 9
  const LastHour: nat := 21

  /** Ordering key of a slot: its minute of the day, -1 when it reads as NaN. */
  function SlotMinute(s: string): int {
    match MinuteOfDay(s)
    case Some(v) => v
    case None => -1
  }

  predicate SortedBy(xs: seq<string>, key: string -> int) {
    forall i, j :: 0 <= i < j < |xs| ==> key(xs[i]) < key(xs[j])
  }

  /** Strictly increasing in time, hence without repetitions. */
  predicate Ascending(slots: seq<string>) {
    SortedBy(slots, SlotMinute)
  }

  // ---- availability handlers ---------------------------------------------

  /** The label of the slot at hour `h` (24-hour clock) on the server side. */
  function HourLabel(h: nat): string {
    Label(ServerHour12(h), 0, Suffix(h))
  }

  /** An hourly label of the day is eight characters: the dial hour in two
      digits, ":00 " and the suffix. */
  lemma HourLabelShape(h: nat)
    requires h < 24
    ensures |HourLabel(h)| == 8 && HourLabel(h)[2..] == ":00 " + Suffix(h)
  {
    Pad2Exact(ServerHour12(h));
    Pad2Zero();
    OnTheHour(Pad2(ServerHour12(h)), Pad2(0), Suffix(h));
  }

  lemma OnTheHour(p: string, z: string, suffix: string)
    requires |p| == 2 && z == "00"
    ensures var r := p + ":" + z + " " + suffix;
            |r| == 6 + |suffix| && r[2..] == ":00 " + suffix
  {
    assert p + ":" + z + " " + suffix == p + (":00 " + suffix);
  }

  /** The loop that builds the hourly slots. */
  method HourlySlots() returns (slots: seq<string>)
    ensures |slots| == LastHour - FirstHour + 1
    ensures forall i :: 0 <= i < |slots| ==> slots[i] == HourLabel(FirstHour + i)
  {
    slots := [];
    for h := FirstHour to LastHour + 1
      invariant |slots| == h - FirstHour
      invariant forall i :: 0 <= i < |slots| ==> slots[i] == HourLabel(FirstHour + i)
    {
      var h12 := ServerHour12(h);
      var suf := Suffix(h);
      slots := slots + [Label(h12, 0, suf)];
    }
  }

  /** Each hourly label stands for its own hour. */
  lemma HourLabelMinute(h: nat)
    requires 1 <= h < 24
    ensures SlotMinute(HourLabel(h)) == h * 60
  {
    assert HourLabel(h) == Label(ServerHour12(h), 0, Suffix(h));
    ServerLabelRoundTrip(h, 0);
  }

  /** The hourly slots run from "09:00 AM" to "09:00 PM" and are in
      increasing order of time, so no two are the same. */
  lemma HourlySlotsAscending(slots: seq<string>)
    requires |slots| == LastHour - FirstHour + 1
    requires forall i :: 0 <= i < |slots| ==> slots[i] == HourLabel(FirstHour + i)
    ensures Ascending(slots)
    ensures SlotMinute(slots[0]) == 9 * 60 && SlotMinute(slots[|slots| - 1]) == 21 * 60
  {
    forall i | 0 <= i < |slots| ensures SlotMinute(slots[i]) == (FirstHour + i) * 60 {
      HourLabelMinute(FirstHour + i);
    }
  }

  /** `slots.filter(s => !taken.includes(s))`. */
  function Without(slots: seq<string>, taken: seq<string>): (r: seq<string>)
    ensures |r| <= |slots|
    ensures forall x :: x in r <==> x in slots && x !in taken
  {
    if slots == [] then []
    else
      var rest := Without(slots[1..], taken);
      assert forall x :: x in slots <==> x == slots[0] || x in slots[1..];
      if slots[0] in taken then rest else [slots[0]] + rest
  }

  /** Filtering keeps the order of what it keeps. */
  lemma {:induction false} WithoutSorted(slots: seq<string>, taken: seq<string>, key: string -> int)
    requires SortedBy(slots, key)
    ensures SortedBy(Without(slots, taken), key)
  {
    if slots != [] {
      var tail := slots[1..];
      assert SortedBy(tail, key) by {
        forall i, j | 0 <= i < j < |tail| ensures key(tail[i]) < key(tail[j]) {
          assert tail[i] == slots[i + 1] && tail[j] == slots[j + 1];
        }
      }
      WithoutSorted(tail, taken, key);
      var rest := Without(tail, taken);
      forall x | x in rest ensures key(slots[0]) < key(x) {
        var j :| 0 <= j < |tail| && tail[j] == x;
        assert slots[j + 1] == x;
      }
    }
  }

  /** GET /api/availability: the hourly slots without the times the user
      already booked on that date; when looking the bookings up fails,
      every slot (`lookupOk` is false). */
  method Availability(taken: seq<string>, lookupOk: bool) returns (available: seq<string>)
    ensures lookupOk ==> forall x :: x in available <==>
              (exists h :: FirstHour <= h <= LastHour && x == HourLabel(h)) && x !in taken
    ensures !lookupOk ==> |available| == LastHour - FirstHour + 1
                          && forall i :: 0 <= i < |available| ==> available[i] == HourLabel(FirstHour + i)
    ensures Ascending(available)
  {
    var slots := HourlySlots();
    HourlySlotsAscending(slots);
    forall x ensures x in slots <==> exists h :: FirstHour <= h <= LastHour && x == HourLabel(h) {
      if x in slots {
        var i :| 0 <= i < |slots| && slots[i] == x;
        assert FirstHour <= FirstHour + i <= LastHour && x == HourLabel(FirstHour + i);
      }
      if exists h :: FirstHour <= h <= LastHour && x == HourLabel(h) {
        var h :| FirstHour <= h <= LastHour && x == HourLabel(h);
        assert slots[h - FirstHour] == x;
      }
    }
    if lookupOk {
      available := Without(slots, taken);
      WithoutSorted(slots, taken, SlotMinute);
    } else {
      available := slots;
    }
  }

  // ---- schedule.js -----------------------------------------------------------

  /** The label of the quarter-hour slot number `i`: 9:00 AM is slot 0. */
  function QuarterLabel(i: nat): string {
    var h := FirstHour + i / 4;
    Label(ClientHour12(h), (i % 4) * 15, Suffix(h))
  }

  /** Every quarter label is eight characters with a space before its
      suffix. */
  lemma QuarterLabelShape(i: nat)
    ensures |QuarterLabel(i)| == 8 && QuarterLabel(i)[5] == ' '
  {
    var h := FirstHour + i / 4;
    LabelShape(ClientHour12(h), (i % 4) * 15, Suffix(h));
  }

  const QuarterCount: nat := 49

  lemma QuarterLabelAt(i: nat, h: nat, m: nat)
    requires FirstHour + i / 4 == h && (i % 4) * 15 == m
    ensures QuarterLabel(i) == Label(ClientHour12(h), m, Suffix(h))
  {
  }

  lemma QuarterStep(h: nat, j: nat, m: nat, i: nat)
    requires FirstHour <= h && j < 4 && m == j * 15 && i == 4 * (h - FirstHour) + j
    ensures QuarterLabel(i) == Label(ClientHour12(h), m, Suffix(h))
  {
    assert i / 4 == h - FirstHour && i % 4 == j;
    QuarterLabelAt(i, h, m);
  }

  lemma QuarterAppend(slots: seq<string>, text: string)
    requires forall i :: 0 <= i < |slots| ==> slots[i] == QuarterLabel(i)
    requires text == QuarterLabel(|slots|)
    ensures forall i :: 0 <= i < |slots| + 1 ==> (slots + [text])[i] == QuarterLabel(i)
  {
  }

  /** `generateSlots()`: every quarter hour from 9:00 AM to 9:00 PM, skipping
      the quarters after 9 PM. */
  method GenerateSlots() returns (slots: seq<string>)
    ensures |slots| == QuarterCount
    ensures forall i :: 0 <= i < |slots| ==> slots[i] == QuarterLabel(i)
  {
    slots := [];
    var minutes := [0, 15, 30, 45];
    for h := FirstHour to LastHour + 1
      invariant |slots| == if h <= LastHour then 4 * (h - FirstHour) else QuarterCount
      invariant forall i :: 0 <= i < |slots| ==> slots[i] == QuarterLabel(i)
    {
      for j := 0 to 4
        invariant |slots| == 4 * (h - FirstHour) + (if h == LastHour && j > 0 then 1 else j)
        invariant forall i :: 0 <= i < |slots| ==> slots[i] == QuarterLabel(i)
      {
        var m := minutes[j];
        assert m == j * 15;
        if h == LastHour && m > 0 {
          continue;
        }
        var hr12 := ClientHour12(h);
        var suf := Suffix(h);
        QuarterStep(h, j, m, |slots|);
        var text := Label(hr12, m, suf);
        QuarterAppend(slots, text);
        slots := slots + [text];
      }
    }
  }

  /** Slot `i` stands for 9:00 AM plus `i` quarter hours. */
  lemma QuarterLabelMinute(i: nat)
    requires i < QuarterCount
    ensures SlotMinute(QuarterLabel(i)) == 540 + 15 * i
  {
    var h, m := FirstHour + i / 4, (i % 4) * 15;
    ClientLabelRoundTrip(h, m);
    assert i == 4 * (i / 4) + i % 4;
  }

  /** The quarter slots are in increasing order of time and reach from
      9:00 AM to 9:00 PM, one every fifteen minutes. */
  lemma QuarterSlotsAscending(slots: seq<string>)
    requires |slots| == QuarterCount
    requires forall i :: 0 <= i < |slots| ==> slots[i] == QuarterLabel(i)
    ensures Ascending(slots)
    ensures forall i :: 0 <= i < |slots| ==> SlotMinute(slots[i]) == 540 + 15 * i
  {
    forall i | 0 <= i < |slots| ensures SlotMinute(slots[i]) == 540 + 15 * i {
      QuarterLabelMinute(i);
    }
  }

  /** The test of the same-day filter: the label's 24-hour reading is after
      the current hour and minute. A NaN hour compares false. */
  function AfterNow(slot: string, nowHour: int, nowMinute: int): (b: bool)
    ensures b ==> ParseClock(slot).hour.Some?
  {
    var c := ParseClock(slot);
    match c.hour
    case None => false
    case Some(h12) =>
      var h := To24(h12, c.suffix);
      h > nowHour || (h == nowHour && c.minute.Some? && c.minute.value > nowMinute)
  }

  function FilterAfterNow(slots: seq<string>, nowHour: int, nowMinute: int): (r: seq<string>)
    ensures forall x :: x in r <==> x in slots && AfterNow(x, nowHour, nowMinute)
  {
    if slots == [] then []
    else
      var rest := FilterAfterNow(slots[1..], nowHour, nowMinute);
      assert forall x :: x in slots <==> x == slots[0] || x in slots[1..];
      if AfterNow(slots[0], nowHour, nowMinute) then [slots[0]] + rest else rest
  }

  /** For a slot written by `generateSlots`, the test is exactly "the slot
      starts after the current minute". */
  lemma AfterNowMeaning(i: nat, nowHour: int, nowMinute: int)
    requires i < QuarterCount && 0 <= nowMinute < 60
    ensures AfterNow(QuarterLabel(i), nowHour, nowMinute) <==> 540 + 15 * i > nowHour * 60 + nowMinute
  {
    var h, m := FirstHour + i / 4, (i % 4) * 15;
    ParseLabel(ClientHour12(h), m, Suffix(h));
    To24OfClientHour(h);
    assert i == 4 * (i / 4) + i % 4;
  }

  /** The options the time list shows after a date is picked: every
      quarter slot, or on today's date only those after the current time. */
  method TimeOptions(selected: string, today: string, nowHour: int, nowMinute: int)
    returns (options: seq<string>)
    requires 0 <= nowMinute < 60
    ensures selected != today ==> |options| == QuarterCount
                                  && forall i :: 0 <= i < QuarterCount ==> options[i] == QuarterLabel(i)
    ensures selected == today ==> forall i :: 0 <= i < QuarterCount ==>
              (QuarterLabel(i) in options <==> 540 + 15 * i > nowHour * 60 + nowMinute)
    ensures forall x :: x in options ==> exists i :: 0 <= i < QuarterCount && x == QuarterLabel(i)
  {
    options := GenerateSlots();
    assert forall x :: x in options ==> exists i :: 0 <= i < QuarterCount && x == QuarterLabel(i) by {
      forall x | x in options ensures exists i :: 0 <= i < QuarterCount && x == QuarterLabel(i) {
        var i :| 0 <= i < |options| && options[i] == x;
      }
    }
    if selected == today {
      var all := options;
      options := FilterAfterNow(all, nowHour, nowMinute);
      forall i | 0 <= i < QuarterCount
        ensures QuarterLabel(i) in options <==> 540 + 15 * i > nowHour * 60 + nowMinute
      {
        assert all[i] == QuarterLabel(i);
        AfterNowMeaning(i, nowHour, nowMinute);
      }
    }
  }

  // ---- earliest bookable date ------------------------------------------------

  /** A day number falls on a working day (neither Sunday nor Saturday). */
  predicate IsWorkday(n: int) {
    (n + 1) % 7 != 0 && (n + 1) % 7 != 6
  }

  /** On calendar dates, a working day is one whose `getDay()` is 1 to 5. */
  lemma WorkdayIffWeekday(d: Date)
    requires Valid(d)
    ensures IsWorkday(DayNumber(d)) <==> 1 <= Weekday(d) <= 5
  {
  }

  /** Number of working days among the day numbers `a + 1 .. b`. */
  function CountWorkdays(a: int, b: int): (r: nat)
    requires a <= b
    ensures r <= b - a
    decreases b - a
  {
    if b == a then 0 else CountWorkdays(a, b - 1) + (if IsWorkday(b) then 1 else 0)
  }

  /** `minDate()`: step one day at a time from today and count the days that
      are not Sunday or Saturday; stop at the third and give it as
      "YYYY-MM-DD". The result is a working day, three working days ahead,
      and never more than five days away. */
  method MinDate(today: Date) returns (d: Date, text: string)
    requires Valid(today) && today.year < 9999
    ensures Valid(d) && DayNumber(today) < DayNumber(d) <= DayNumber(today) + 5
    ensures IsWorkday(DayNumber(d)) && Weekday(d) != 0 && Weekday(d) != 6
    ensures CountWorkdays(DayNumber(today), DayNumber(d)) == 3
    ensures ParseIsoDate(text) == Some(d)
  {
    d := ThirdWorkday(today);
    WorkdayIffWeekday(d);
    NearDateIso(today, d);
    text := IsoText(d);
  }

  /** The counting loop of `minDate`: the third day after `today` that is
      neither Sunday nor Saturday. */
  method ThirdWorkday(today: Date) returns (d: Date)
    requires Valid(today)
    ensures Valid(d) && DayNumber(today) < DayNumber(d) <= DayNumber(today) + 5
    ensures IsWorkday(DayNumber(d))
    ensures CountWorkdays(DayNumber(today), DayNumber(d)) == 3
  {
    d := today;
    var weekend := [0, 6];
    var cnt := 0;
    ghost var start := DayNumber(today);
    while cnt < 3
      invariant Valid(d) && start <= DayNumber(d) <= start + 5
      invariant cnt == CountWorkdays(start, DayNumber(d)) && cnt <= 3
      invariant cnt == 3 ==> IsWorkday(DayNumber(d)) && start < DayNumber(d)
      decreases start + 5 - DayNumber(d)
    {
      ghost var before := DayNumber(d);
      CountStep(start, before, cnt);
      d := Tomorrow(d);
      if Weekday(d) !in weekend {
        cnt := cnt + 1;
      }
    }
  }

  /** `d.setDate(d.getDate() + 1)`: the following calendar day. */
  method Tomorrow(d: Date) returns (e: Date)
    requires Valid(d)
    ensures Valid(e) && DayNumber(e) == DayNumber(d) + 1
  {
    e := NextDay(d);
  }

  /** One more day adds one to the count exactly when it is a working day,
      and while fewer than three have been counted the next day is still
      within five of the start. */
  lemma CountStep(a: int, b: int, cnt: nat)
    requires a <= b && cnt == CountWorkdays(a, b) && cnt < 3
    ensures b + 1 <= a + 5
    ensures CountWorkdays(a, b + 1) == cnt + (if IsWorkday(b + 1) then 1 else 0)
  {
    FewWorkdaysFewDays(a, b);
  }

  lemma NearDateIso(today: Date, d: Date)
    requires Valid(today) && today.year < 9999 && Valid(d)
    requires DayNumber(today) <= DayNumber(d) <= DayNumber(today) + 5
    ensures d.year <= 9999 && ParseIsoDate(IsoText(d)) == Some(d)
  {
    YearWithinDays(today, d);
    IsoRoundTrip(d);
  }

  /** Any five consecutive days hold at least three working days. */
  lemma FiveDaysHoldThreeWorkdays(a: int)
    ensures CountWorkdays(a, a + 5) >= 3
  {
    assert CountWorkdays(a, a + 5) == CountWorkdays(a, a + 4) + (if IsWorkday(a + 5) then 1 else 0);
    assert CountWorkdays(a, a + 4) == CountWorkdays(a, a + 3) + (if IsWorkday(a + 4) then 1 else 0);
    assert CountWorkdays(a, a + 3) == CountWorkdays(a, a + 2) + (if IsWorkday(a + 3) then 1 else 0);
    assert CountWorkdays(a, a + 2) == CountWorkdays(a, a + 1) + (if IsWorkday(a + 2) then 1 else 0);
    assert CountWorkdays(a, a + 1) == (if IsWorkday(a + 1) then 1 else 0);
  }

  lemma {:induction false} CountWorkdaysMonotone(a: int, b: int, c: int)
    requires a <= b <= c
    ensures CountWorkdays(a, b) <= CountWorkdays(a, c)
    decreases c - b
  {
    if b < c {
      CountWorkdaysMonotone(a, b, c - 1);
    }
  }

  /** Fewer than three working days means fewer than five days. */
  lemma FewWorkdaysFewDays(a: int, b: int)
    requires a <= b && CountWorkdays(a, b) < 3
    ensures b < a + 5
  {
    if b >= a + 5 {
      FiveDaysHoldThreeWorkdays(a);
      CountWorkdaysMonotone(a, a + 5, b);
      assert false;
    }
  }
}
