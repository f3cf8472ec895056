/** Rules about appointments that the two servers and the two profile
    pages share: how many days away an appointment is, when it may be
    cancelled, the timestamp `toTs` gives it, which appointment a vehicle
    shows as its next one, and the archive toggle of a cancellation record
    (`PUT /api/customer-cancellation-archive`, written identically in
    server.js and mainServer.js).

    "Today" is a parameter. The model counts the distance between two
    dates in calendar days; the code divides a difference of local
    midnights in milliseconds by 86400000, which is not a whole number
    across a change to or from daylight-saving time, and that difference
    is not modelled. */
module Appointments {
  import opened Common
  import opened Calendar
  import opened ClockLabels
  import opened Records

  // ---- the one-day cancellation rule -------------------------------------

  /** `(new Date(date + 'T00:00:00') - today) / 86400000`: the number of days
      from today to the appointment, or `None` (NaN) when the stored date is
      missing or is not a "YYYY-MM-DD" date. */
  function DaysUntil(date: Option<string>, today: Date): (r: Option<int>)
    requires Valid(today)
    ensures r.Some? <==> date.Some? && ParseIsoDate(date.value).Some?
    ensures r.Some? ==> r.value == DayNumber(ParseIsoDate(date.value).value) - DayNumber(today)
  {
    if date.None? then None
    else
      match ParseIsoDate(date.value)
      case None => None
      case Some(d) => Some(DayNumber(d) - DayNumber(today))
  }

  /** The server refuses a cancellation when the appointment is less than
      one day away, that is today or in the past; NaN compares false, so an
      unreadable date is let through. */
  function TooLate(date: Option<string>, today: Date): (b: bool)
    requires Valid(today)
    ensures b <==> date.Some? && ParseIsoDate(date.value).Some?
                   && DayNumber(ParseIsoDate(date.value).value) <= DayNumber(today)
  {
    var k := DaysUntil(date, today);
    k.Some? && k.value < 1
  }

  /** The profile pages offer the cancel button only when the appointment is
      at least one day away, so the server never refuses it as too late. */
  function CancelButtonShown(date: Option<string>, today: Date): (b: bool)
    requires Valid(today)
    ensures b ==> !TooLate(date, today)
  {
    var k := DaysUntil(date, today);
    k.Some? && k.value >= 1
  }

  /** The button is shown exactly for appointments on a later calendar day. */
  lemma ButtonMeansLaterDay(date: Option<string>, today: Date)
    requires Valid(today)
    ensures CancelButtonShown(date, today) <==>
              date.Some? && ParseIsoDate(date.value).Some?
              && DayNumber(ParseIsoDate(date.value).value) > DayNumber(today)
  {
  }

  /** Whenever the page offers the button the server accepts the deadline;
      the two disagree only on a date that cannot be read, which the page
      hides and the server lets through. */
  lemma ButtonAgreesWithServer(date: Option<string>, today: Date)
    requires Valid(today)
    ensures CancelButtonShown(date, today) ==> !TooLate(date, today)
    ensures (!CancelButtonShown(date, today) && !TooLate(date, today))
              <==> DaysUntil(date, today).None?
  {
  }

  // ---- toTs and the next appointment ---------------------------------------

  /** `toTs(s)` in minutes: the day of `new Date(s.date)` with the hours and
      minutes of the 12-hour `s.time` set on it; `None` is NaN. Every date is
      shifted alike by the time zone, so only differences matter. */
  function Timestamp(s: Schedule): (r: Option<int>)
    ensures r.Some? ==> s.date.Some? && s.time.Some? && ParseIsoDate(s.date.value).Some?
  {
    Combine(DayOf(s.date), MinuteOf(s.time))
  }

  /** The calendar day of `new Date(date)`; `None` when it is NaN. */
  function DayOf(date: Option<string>): (r: Option<Date>)
    ensures r.Some? ==> date.Some? && ParseIsoDate(date.value) == r
  {
    if date.None? then None else ParseIsoDate(date.value)
  }

  /** The minute of the day `s.time` stands for; `None` when it is NaN. */
  function MinuteOf(time: Option<string>): Option<int> {
    if time.None? then None else MinuteOfDay(time.value)
  }

  /** `d.setHours(h, m, 0, 0)` in minutes since the first day. */
  function Combine(day: Option<Date>, minute: Option<int>): (r: Option<int>)
    requires day.Some? ==> Valid(day.value)
    ensures r.Some? <==> day.Some? && minute.Some?
    ensures r.Some? ==> r.value == DayNumber(day.value) * 1440 + minute.value
  {
    if day.Some? && minute.Some? then Some(DayNumber(day.value) * 1440 + minute.value) else None
  }

  /** A schedule whose date and time read as a day and a minute of the day
      has the timestamp of that minute on that day. */
  lemma TimestampOfParts(s: Schedule, d: Date, minute: int)
    requires s.date.Some? && s.time.Some? && Valid(d)
    requires ParseIsoDate(s.date.value) == Some(d) && MinuteOfDay(s.time.value) == Some(minute)
    ensures Timestamp(s) == Some(DayNumber(d) * 1440 + minute)
  {
    DayOfParsed(s.date, d);
    MinuteOfParsed(s.time, minute);
    CombineParts(DayOf(s.date), MinuteOf(s.time), d, minute);
  }

  lemma DayOfParsed(date: Option<string>, d: Date)
    requires date.Some? && ParseIsoDate(date.value) == Some(d)
    ensures DayOf(date) == Some(d)
  {
  }

  lemma MinuteOfParsed(time: Option<string>, minute: int)
    requires time.Some? && MinuteOfDay(time.value) == Some(minute)
    ensures MinuteOf(time) == Some(minute)
  {
  }

  lemma CombineParts(day: Option<Date>, minute: Option<int>, d: Date, m: int)
    requires day == Some(d) && Valid(d) && minute == Some(m)
    ensures Combine(day, minute) == Some(DayNumber(d) * 1440 + m)
  {
  }

  /** The order the model sorts timestamps by: readable timestamps
      ascending, as `(a, b) => toTs(a) - toTs(b)` orders them, and a missing
      one (NaN) after every readable one. The source's comparator instead
      gives NaN for any pair with a NaN timestamp, which `sort` reads as
      "equal"; that order is not modelled. */
  predicate Before(a: Option<int>, b: Option<int>) {
    a.Some? && (b.None? || a.value < b.value)
  }

  /** Position of the first least key: the head of a stable sort by key. */
  function FirstLeast(keys: seq<Option<int>>): (i: nat)
    requires |keys| > 0
    ensures i < |keys|
    ensures forall j :: 0 <= j < |keys| ==> !Before(keys[j], keys[i])
    ensures forall j :: 0 <= j < i ==> Before(keys[i], keys[j])
  {
    if |keys| == 1 then 0
    else
      var k := FirstLeast(keys[1..]);
      if Before(keys[k + 1], keys[0]) then k + 1 else 0
  }

  /** Only one position can be first among the least. */
  lemma FirstLeastUnique(keys: seq<Option<int>>, i: nat)
    requires i < |keys|
    requires forall j :: 0 <= j < |keys| ==> !Before(keys[j], keys[i])
    requires forall j :: 0 <= j < i ==> Before(keys[i], keys[j])
    ensures i == FirstLeast(keys)
  {
    var f := FirstLeast(keys);
    assert !Before(keys[f], keys[i]);
    assert !Before(keys[i], keys[f]);
  }

  function Timestamps(xs: seq<Schedule>): (ks: seq<Option<int>>)
    ensures |ks| == |xs| && forall j :: 0 <= j < |xs| ==> ks[j] == Timestamp(xs[j])
  {
    seq(|xs|, j requires 0 <= j < |xs| => Timestamp(xs[j]))
  }

  /** The schedules that book the vehicle, in their original order. */
  function Related(schedules: seq<Schedule>, vehicleId: string): (r: seq<Schedule>)
    ensures forall s :: s in r <==> s in schedules && Books(s, vehicleId)
  {
    if schedules == [] then []
    else
      var rest := Related(schedules[1..], vehicleId);
      if Books(schedules[0], vehicleId) then [schedules[0]] + rest else rest
  }

  /** The appointment a vehicle card shows (customer.js and fleet.js):
      among the schedules booking the vehicle, the first with the least
      timestamp, an unreadable timestamp ranking after every readable one;
      `None` when no schedule books it. "First" is the stored order, which a
      stable sort keeps among equal timestamps: every schedule before the
      chosen one in that order is strictly later. */
  function NextAppointment(schedules: seq<Schedule>, vehicleId: string): (r: Option<Schedule>)
    ensures r.None? <==> forall s :: s in schedules ==> !Books(s, vehicleId)
    ensures r.Some? ==> r.value in schedules && Books(r.value, vehicleId)
    ensures r.Some? ==> forall s :: s in schedules && Books(s, vehicleId) ==>
              !Before(Timestamp(s), Timestamp(r.value))
    ensures r.Some? ==>
              exists k :: (0 <= k < |Related(schedules, vehicleId)|
                && Related(schedules, vehicleId)[k] == r.value
                && forall j :: 0 <= j < k ==> Before(Timestamp(r.value), Timestamp(Related(schedules, vehicleId)[j])))
  {
    var related := Related(schedules, vehicleId);
    if related == [] then None
    else
      var i := FirstLeast(Timestamps(related));
      SortHead(related, i);
      Some(related[i])
  }

  /** The schedule at the first least timestamp is in the list, no schedule
      of the list is before it, and every earlier one is strictly after it. */
  lemma SortHead(xs: seq<Schedule>, i: nat)
    requires |xs| > 0 && i == FirstLeast(Timestamps(xs))
    ensures i < |xs| && xs[i] in xs
    ensures forall s :: s in xs ==> !Before(Timestamp(s), Timestamp(xs[i]))
    ensures forall j :: 0 <= j < i ==> Before(Timestamp(xs[i]), Timestamp(xs[j]))
  {
    forall s | s in xs ensures !Before(Timestamp(s), Timestamp(xs[i])) {
      var j :| 0 <= j < |xs| && xs[j] == s;
    }
  }

  // ---- archive toggle ------------------------------------------------------------

  /** `findIndex(c => new Date(c.date).getTime() === dt.getTime())`; a
      request date that cannot be read is NaN and matches nothing. */
  function FirstMatch(cs: seq<Cancellation>, stamp: Option<int>): (r: Option<nat>)
    ensures r.Some? ==> stamp.Some? && r.value < |cs| && cs[r.value].date == stamp.value
    ensures r.Some? ==> forall j :: 0 <= j < r.value ==> cs[j].date != stamp.value
    ensures r.None? ==> stamp.None? || forall j :: 0 <= j < |cs| ==> cs[j].date != stamp.value
  {
    if stamp.None? || cs == [] then None
    else if cs[0].date == stamp.value then Some(0)
    else
      match FirstMatch(cs[1..], stamp)
      case None => None
      case Some(k) => Some(k + 1)
  }

  /** The records after flipping the `archived` flag of entry `i`. */
  function Flipped(cs: seq<Cancellation>, i: nat): (r: seq<Cancellation>)
    requires i < |cs|
    ensures |r| == |cs| && r[i].archived == !cs[i].archived
    ensures r[i] == cs[i].(archived := r[i].archived)
    ensures forall j :: 0 <= j < |cs| && j != i ==> r[j] == cs[j]
  {
    cs[i := cs[i].(archived := !cs[i].archived)]
  }

  /** Toggling with the same date twice restores the records: the matched
      entry keeps its date, so the second request finds it again. */
  lemma ToggleTwice(cs: seq<Cancellation>, stamp: Option<int>)
    requires FirstMatch(cs, stamp).Some?
    ensures FirstMatch(Flipped(cs, FirstMatch(cs, stamp).value), stamp) == FirstMatch(cs, stamp)
    ensures Flipped(Flipped(cs, FirstMatch(cs, stamp).value), FirstMatch(cs, stamp).value) == cs
  {
    var i := FirstMatch(cs, stamp).value;
    var once := Flipped(cs, i);
    var f := FirstMatch(once, stamp);
    assert once[i].date == stamp.value;
    assert forall j :: 0 <= j < i ==> once[j].date != stamp.value;
  }

  /** `PUT /api/customer-cancellation-archive` (server.js and mainServer.js
      alike). `date` is the request's `date` field and `stamp` what
      `new Date(date)` reads from it. A missing date is 400, an unknown
      customer or a date that matches no record is 404 and changes nothing;
      otherwise only the `archived` flag of the first record with that
      date is negated. */
  method ToggleArchive(db: Store, sessionUser: string, date: Scalar, stamp: Option<int>)
    returns (status: int)
    modifies db
    ensures db.schedules == old(db.schedules) && db.services == old(db.services)
    ensures db.conversations == old(db.conversations)
    ensures !TruthyScalar(date) ==> status == 400
    ensures TruthyScalar(date) && sessionUser !in old(db.customers) ==> status == 404
    ensures (TruthyScalar(date) && sessionUser in old(db.customers)
              && FirstMatch(old(db.customers)[sessionUser].cancellations, stamp).None?) ==> status == 404
    ensures status != 200 ==> db.customers == old(db.customers)
    ensures status == 200 <==>
              TruthyScalar(date) && sessionUser in old(db.customers)
              && FirstMatch(old(db.customers)[sessionUser].cancellations, stamp).Some?
    ensures status == 200 ==>
              var p := old(db.customers)[sessionUser];
              db.customers == old(db.customers)[sessionUser :=
                p.(cancellations := Flipped(p.cancellations, FirstMatch(p.cancellations, stamp).value))]
  {
    if !TruthyScalar(date) {
      return 400;
    }
    if sessionUser !in db.customers {
      return 404;
    }
    var p := db.customers[sessionUser];
    var idx := FirstMatch(p.cancellations, stamp);
    if idx.None? {
      return 404;
    }
    db.customers := db.customers[sessionUser := p.(cancellations := Flipped(p.cancellations, idx.value))];
    status := 200;
  }
}
