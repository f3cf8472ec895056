/** The customer page (customer.js) and the fleet page (fleet.js): which
    page renders, the denial notice, the appointment note and cancel
    button of each vehicle card, the odometer, the mileage prompt, the
    list of cancellations and the chat widget's unread state. The
    appointment order and the one-day rule are `Appointments`'. */
module ProfilePages {
  import opened Common
  import opened Decimal
  import opened Calendar
  import opened Records
  import opened Appointments
  import MainServer

  // ---- which page renders ---------------------------------------------------

  datatype Page = CustomerPage | FleetPage

  /** Where a page sends an account as soon as the profile loads: the
      customer page sends Fleet accounts to the fleet page, and the fleet
      page sends every other account to the customer page; `None` means
      the page stays and renders. */
  function Redirect(on: Page, accountType: Option<string>): (r: Option<Page>)
    ensures r.Some? ==> r.value != on
  {
    match on
    case CustomerPage => if accountType == Some("Fleet") then Some(FleetPage) else None
    case FleetPage => if accountType != Some("Fleet") then Some(CustomerPage) else None
  }

  /** The page an account ends up on: it renders there, and every page
      either renders or sends the account straight to it. */
  function Landing(accountType: Option<string>): (p: Page)
    ensures Redirect(p, accountType) == None
    ensures forall on: Page :: Redirect(on, accountType) == None || Redirect(on, accountType) == Some(p)
  {
    if accountType == Some("Fleet") then FleetPage else CustomerPage
  }

  /** No account is sent back and forth: a page that redirects sends the
      account to a page that renders, and exactly one page renders. */
  lemma NoRedirectLoop(on: Page, accountType: Option<string>)
    ensures Redirect(on, accountType).Some? ==> Redirect(Redirect(on, accountType).value, accountType) == None
    ensures Redirect(on, accountType) == None <==> on == Landing(accountType)
  {
  }

  // ---- the denial notice --------------------------------------------------------

  const Awaiting: string := "awaiting reason"

  /** customer.js: a reason is a denial when it is present and, trimmed and
      lower-cased, is not "awaiting reason"; so no spelling of "awaiting
      reason" is a denial. */
  function CustomerDenied(reason: Option<string>): (b: bool)
    ensures reason.Some? && ToLower(reason.value) == Awaiting ==> !b
  {
    match reason
    case None => false
    case Some(v) =>
      AwaitingSpellingTrimmed(v);
      v != "" && ToLower(Trim(v)) != Awaiting
  }

  /** fleet.js: a reason is a denial when it is not blank and, lower-cased
      but not trimmed, is not "awaiting reason"; so a denial always holds
      a character that is not white space. */
  function FleetDenied(reason: Option<string>): (b: bool)
    ensures b ==> reason.Some? && exists i :: 0 <= i < |reason.value| && !IsSpace(reason.value[i])
  {
    match reason
    case None => false
    case Some(v) =>
      TrimBlankIff(v);
      v != "" && Trim(v) != "" && ToLower(v) != Awaiting
  }

  /** Every spelling of "awaiting reason" starts with an `a` and ends with
      an `n` in one case or the other, so trimming leaves it alone. */
  lemma AwaitingSpellingTrimmed(v: string)
    ensures ToLower(v) == Awaiting ==> Trim(v) == v
  {
    if ToLower(v) == Awaiting {
      assert ToLower(v)[0] == 'a' && ToLower(v)[|v| - 1] == 'n';
      assert '!' <= v[0] <= '~' && '!' <= v[|v| - 1] <= '~';
      VisibleNotSpace(v[0]);
      VisibleNotSpace(v[|v| - 1]);
      TrimUnchanged(v);
    }
  }

  /** Exactly where the two pages disagree: the customer page alone denies
      a reason of white space only, and the fleet page alone denies a
      spelling of "awaiting reason" with white space around it. */
  lemma DeniedDifference(reason: Option<string>)
    ensures (CustomerDenied(reason) && !FleetDenied(reason))
              <==> (Truthy(reason) && Trim(reason.value) == "")
    ensures (FleetDenied(reason) && !CustomerDenied(reason))
              <==> (Truthy(reason) && ToLower(Trim(reason.value)) == Awaiting && Trim(reason.value) != reason.value)
  {
    if reason.Some? {
      var v := reason.value;
      AwaitingSpellingTrimmed(v);
      if Trim(v) == "" {
        assert ToLower(Trim(v)) == "";
      }
    }
  }

  /** On a reason without surrounding white space the pages agree. */
  lemma DeniedAgreeWhenTrimmed(reason: Option<string>)
    requires reason.Some? && Trim(reason.value) == reason.value
    ensures CustomerDenied(reason) <==> FleetDenied(reason)
  {
    if reason.value == "" {
      assert !Truthy(reason);
    } else {
      assert ToLower("") == "";
    }
  }

  /** The pages disagree on padded and on blank reasons: the customer page
      shows " awaiting reason " as no denial and a blank reason as one, the
      fleet page the other way round. */
  lemma DeniedDisagreements()
    ensures !CustomerDenied(Some(" awaiting reason ")) && FleetDenied(Some(" awaiting reason "))
    ensures CustomerDenied(Some(" ")) && !FleetDenied(Some(" "))
  {
    AwaitingShape();
    PaddedDisagree(Awaiting);
    PadAwaiting();
    BlankDisagree();
  }

  lemma AwaitingShape()
    ensures Awaiting != [] && !IsSpace(Awaiting[0]) && !IsSpace(Awaiting[|Awaiting| - 1])
    ensures ToLower(Awaiting) == Awaiting
  {
    AwaitingEnds();
    AwaitingLower();
  }

  lemma AwaitingEnds()
    ensures Awaiting != [] && !IsSpace(Awaiting[0]) && !IsSpace(Awaiting[|Awaiting| - 1])
  {
    assert Awaiting[0] == 'a' && Awaiting[|Awaiting| - 1] == 'n';
    VisibleNotSpace(Awaiting[0]);
    VisibleNotSpace(Awaiting[|Awaiting| - 1]);
  }

  lemma AwaitingLower()
    ensures ToLower(Awaiting) == Awaiting
  {
    ToLowerUnchanged("awaiting ");
    ToLowerUnchanged("r");
    ToLowerUnchanged("eason");
    ToLowerParts("awaiting ", "r", "eason", "awaiting ", "r", "eason");
    SplitAwaiting();
  }

  lemma PadAwaiting()
    ensures " awaiting reason " == " " + Awaiting + " "
  {
  }

  lemma BlankDisagree()
    ensures CustomerDenied(Some(" ")) && !FleetDenied(Some(" "))
  {
    TrimAround(" ", 1, 1);
    assert ToLower("") == "";
  }

  /** Any spelling of "awaiting reason" with one space on each side is a
      denial on the fleet page only. */
  lemma PaddedDisagree(w: string)
    requires w != [] && !IsSpace(w[0]) && !IsSpace(w[|w| - 1]) && ToLower(w) == Awaiting
    ensures !CustomerDenied(Some(" " + w + " ")) && FleetDenied(Some(" " + w + " "))
  {
    TrimPadded(w);
    assert |ToLower(" " + w + " ")| != |Awaiting|;
  }

  lemma TrimPadded(w: string)
    requires w != [] && !IsSpace(w[0]) && !IsSpace(w[|w| - 1])
    ensures Trim(" " + w + " ") == w
  {
    var padded := " " + w + " ";
    assert padded[1..1 + |w|] == w;
    assert padded[0] == ' ' && padded[1 + |w|] == ' ';
    assert padded[1] == w[0] && padded[|w|] == w[|w| - 1];
    TrimAround(padded, 1, 1 + |w|);
  }

  /** The reason mainServer.js books a schedule with is no denial on
      either page. */
  lemma AwaitingReasonIsNoDenial()
    ensures !CustomerDenied(Some(MainServer.AwaitingReason))
    ensures !FleetDenied(Some(MainServer.AwaitingReason))
  {
    LowerAwaitingReason();
  }

  lemma LowerAwaitingReason()
    ensures ToLower(MainServer.AwaitingReason) == Awaiting
  {
    ToLowerUnchanged("awaiting ");
    ToLowerUnchanged("eason");
    assert ToLower("R") == "r";
    ToLowerParts("awaiting ", "R", "eason", "awaiting ", "r", "eason");
    SplitAwaiting();
  }

  lemma SplitAwaiting()
    ensures MainServer.AwaitingReason == "awaiting " + "R" + "eason"
    ensures Awaiting == "awaiting " + "r" + "eason"
  {
  }

  lemma ToLowerParts(a: string, b: string, c: string, x: string, y: string, z: string)
    requires ToLower(a) == x && ToLower(b) == y && ToLower(c) == z
    ensures ToLower(a + b + c) == x + y + z
  {
    ToLowerAppend(a + b, c);
    ToLowerAppend(a, b);
  }

  /** The denial rule of the customer page, or of the fleet page. */
  predicate Denied(reason: Option<string>, fleet: bool) {
    if fleet then FleetDenied(reason) else CustomerDenied(reason)
  }

  /** `xs.findIndex(p)`, as an option. */
  function FirstWhere<T>(xs: seq<T>, p: T -> bool): (r: Option<nat>)
    ensures r.Some? ==> r.value < |xs| && p(xs[r.value])
    ensures r.Some? ==> forall j :: 0 <= j < r.value ==> !p(xs[j])
    ensures r.None? ==> forall j :: 0 <= j < |xs| ==> !p(xs[j])
  {
    if xs == [] then None
    else if p(xs[0]) then Some(0)
    else
      match FirstWhere(xs[1..], p)
      case None => None
      case Some(k) => Some(k + 1)
  }

  function Reasons(schedules: seq<Schedule>): (rs: seq<Option<string>>)
    ensures |rs| == |schedules| && forall j :: 0 <= j < |rs| ==> rs[j] == schedules[j].reason
  {
    seq(|schedules|, j requires 0 <= j < |schedules| => schedules[j].reason)
  }

  /** `schedules.find(denied)`: the position of the first schedule whose
      reason is a denial on the given page, or `None` when there is none
      and the notice stays empty. */
  function FirstDenied(schedules: seq<Schedule>, fleet: bool): (r: Option<nat>)
    ensures r.Some? ==> r.value < |schedules| && Denied(schedules[r.value].reason, fleet)
    ensures r.Some? ==> forall j :: 0 <= j < r.value ==> !Denied(schedules[j].reason, fleet)
    ensures r.None? ==> forall j :: 0 <= j < |schedules| ==> !Denied(schedules[j].reason, fleet)
  {
    FirstWhere(Reasons(schedules), reason => Denied(reason, fleet))
  }

  // ---- the vehicle card ------------------------------------------------------------

  const NoAppointmentEs: string := "Sin cita"
  const NoAppointmentEn: string := "No appointment"

  /** The note's date text: the locale rendering of the appointment's date
      (a parameter of the model) and its time, or the "no appointment" text
      of the page. */
  function NoteText(next: Option<Schedule>, localeDate: string, fleet: bool): (r: string)
    ensures next.None? ==> r == (if fleet then NoAppointmentEn else NoAppointmentEs)
  {
    match next
    case None => if fleet then NoAppointmentEn else NoAppointmentEs
    case Some(s) =>
      localeDate + (if fleet then " at " else " a las ") + Interpolated(s.time)
  }

  /** The Spanish note reads "Sin cita" exactly when no schedule books the
      vehicle: a rendered appointment always has " a las " where "Sin cita"
      has no space. */
  lemma NoAppointmentIff(schedules: seq<Schedule>, vehicleId: string, localeDate: string)
    ensures (NoteText(NextAppointment(schedules, vehicleId), localeDate, false) == NoAppointmentEs)
              <==> forall s :: s in schedules ==> !Books(s, vehicleId)
  {
    var next := NextAppointment(schedules, vehicleId);
    if next.Some? {
      var r := NoteText(next, localeDate, false);
      var n := |localeDate|;
      assert r[n] == ' ' && |r| >= n + 7;
      assert |NoAppointmentEs| == 8 && NoAppointmentEs[0] != ' ' && NoAppointmentEs[1] != ' ';
    }
  }

  /** The schedule a card's cancel button cancels: the card's next
      appointment, when it is at least one day ahead. */
  function CancelButton(schedules: seq<Schedule>, vehicleId: string, today: Date): (r: Option<Schedule>)
    requires Valid(today)
    ensures r.Some? <==> NextAppointment(schedules, vehicleId).Some?
                         && CancelButtonShown(NextAppointment(schedules, vehicleId).value.date, today)
    ensures r.Some? ==> r == NextAppointment(schedules, vehicleId)
  {
    var next := NextAppointment(schedules, vehicleId);
    if next.Some? && CancelButtonShown(next.value.date, today) then next else None
  }

  /** A button is only offered for a schedule of the card's vehicle that the
      server's deadline accepts. */
  lemma ButtonIsHonoured(schedules: seq<Schedule>, vehicleId: string, today: Date)
    requires Valid(today) && CancelButton(schedules, vehicleId, today).Some?
    ensures CancelButton(schedules, vehicleId, today).value in schedules
    ensures Books(CancelButton(schedules, vehicleId, today).value, vehicleId)
    ensures !TooLate(CancelButton(schedules, vehicleId, today).value.date, today)
  {
    ButtonAgreesWithServer(CancelButton(schedules, vehicleId, today).value.date, today);
  }

  // ---- the odometer and the mileage prompt --------------------------------------

  /** `String(v.milage ?? 0).padStart(6, '0')` (customer.js) and
      `String(v.milage || 0).padStart(6, '0')` (fleet.js), which agree on
      every stored mileage. */
  function MileageText(milage: Option<int>): (r: string)
    ensures |r| >= 6
    ensures milage.None? ==> r == "000000"
  {
    var n := if milage.Some? then milage.value else 0;
    PadStart(IntText(n), 6, '0')
  }

  /** A mileage below a million shows as exactly six digits that read back
      as the mileage. */
  lemma MileageTextExact(n: nat)
    requires n < 1000000
    ensures |MileageText(Some(n))| == 6
    ensures AllDigits(MileageText(Some(n))) && Value(MileageText(Some(n))) == n
  {
    assert Pow10(6) == 1000000;
    NatTextLength(n, 6);
    ZeroPaddedNat(n, 6);
  }

  /** `editMilage`: `parseInt` of the prompt's answer (a cancelled prompt
      gives null, read as the text "null"), refused when NaN or negative
      before any request is made. */
  function EditMilage(input: Option<string>): (km: Option<nat>)
    ensures km.Some? <==> input.Some? && ParseInt(input.value).Some? && ParseInt(input.value).value >= 0
    ensures km.Some? ==> km.value == ParseInt(input.value).value
  {
    if input.None? then None
    else
      match ParseInt(input.value)
      case None => None
      case Some(k) => if k < 0 then None else Some(k)
  }

  /** Typing the digits the odometer shows submits the stored mileage. */
  lemma EditOdometerRoundTrip(n: nat)
    ensures EditMilage(Some(MileageText(Some(n)))) == Some(n)
  {
    ZeroPaddedNat(n, 6);
    ParseIntOfDigits(MileageText(Some(n)));
  }

  /** `parseInt` reads a string of two or more decimal digits as their value. */
  lemma ParseIntOfDigits(t: string)
    requires |t| >= 2 && AllDigits(t)
    ensures ParseInt(t) == Some(Value(t))
  {
    assert IsDigit(t[0]);
    TrimStartVisible(t);
    assert t[0] != '-' && t[0] != '+';
    ParseMagnitudeOfDigits(t);
  }

  lemma ParseMagnitudeOfDigits(t: string)
    requires |t| >= 2 && AllDigits(t)
    ensures ParseMagnitude(t) == Some(Value(t))
  {
    assert t[1] != 'x' && t[1] != 'X';
    RunOfDigits(t);
    assert t[..|t|] == t;
  }

  lemma {:induction false} RunOfDigits(t: string)
    requires AllDigits(t)
    ensures Run(t, IsDigit) == |t|
  {
    if t != [] {
      assert AllDigits(t[1..]);
      RunOfDigits(t[1..]);
    }
  }

  // ---- the cancellations list ------------------------------------------------------

  /** The records whose `archived` flag equals the checkbox, in stored order. */
  function WithFlag(cs: seq<Cancellation>, showArchived: bool): (r: seq<Cancellation>)
    ensures forall c :: c in r <==> c in cs && c.archived == showArchived
    ensures multiset(r) <= multiset(cs)
  {
    if cs == [] then []
    else
      var rest := WithFlag(cs[1..], showArchived);
      assert cs == [cs[0]] + cs[1..];
      if cs[0].archived == showArchived then [cs[0]] + rest else rest
  }

  predicate NewestFirst(cs: seq<Cancellation>) {
    forall i, j :: 0 <= i < j < |cs| ==> cs[i].date >= cs[j].date
  }

  /** Inserting into a newest-first list before the first record that is
      not newer, so that a record inserted ahead of its equals stays ahead
      of them, as the stable `Array.prototype.sort` keeps it. */
  function Insert(c: Cancellation, sorted: seq<Cancellation>): (r: seq<Cancellation>)
    requires NewestFirst(sorted)
    ensures multiset(r) == multiset(sorted) + multiset{c}
    ensures forall x :: x in r ==> x == c || x in sorted
    ensures NewestFirst(r)
  {
    if sorted == [] then
      [c]
    else if sorted[0].date <= c.date then
      HeadNewest(sorted);
      ConsNewest(c, sorted);
      [c] + sorted
    else
      NewestFirstTail(sorted);
      HeadNewest(sorted);
      var rest := Insert(c, sorted[1..]);
      assert sorted == [sorted[0]] + sorted[1..];
      ConsNewest(sorted[0], rest);
      [sorted[0]] + rest
  }

  /** The head of a newest-first list is at least as new as every record. */
  lemma HeadNewest(cs: seq<Cancellation>)
    requires NewestFirst(cs) && cs != []
    ensures forall x :: x in cs ==> x.date <= cs[0].date
  {
    forall x | x in cs ensures x.date <= cs[0].date {
      var i :| 0 <= i < |cs| && cs[i] == x;
      if i > 0 {
        assert cs[0].date >= cs[i].date;
      }
    }
  }

  /** Passing a newer record on the way to the insertion point keeps the
      records of every date in order. */
  lemma PassOver(h: Cancellation, c: Cancellation, rest: seq<Cancellation>, ins: seq<Cancellation>, d: int)
    requires h.date > c.date
    requires OfDate(ins, d) == (if c.date == d then [c] else []) + OfDate(rest, d)
    ensures OfDate([h] + ins, d) == (if c.date == d then [c] else []) + OfDate([h] + rest, d)
  {
    OfDateCons(h, ins, d);
    OfDateCons(h, rest, d);
  }

  /** The records of `cs` dated `d`, in the order of `cs`. */
  function OfDate(cs: seq<Cancellation>, d: int): (r: seq<Cancellation>)
    ensures forall x :: x in r <==> x in cs && x.date == d
  {
    if cs == [] then []
    else (if cs[0].date == d then [cs[0]] else []) + OfDate(cs[1..], d)
  }

  lemma OfDateCons(x: Cancellation, cs: seq<Cancellation>, d: int)
    ensures OfDate([x] + cs, d) == (if x.date == d then [x] else []) + OfDate(cs, d)
  {
    assert ([x] + cs)[1..] == cs;
  }

  /** Inserting puts the new record ahead of the records of its date and
      leaves every other date's records in their order. */
  lemma {:induction false} InsertStable(c: Cancellation, sorted: seq<Cancellation>, d: int)
    requires NewestFirst(sorted)
    ensures OfDate(Insert(c, sorted), d) == (if c.date == d then [c] else []) + OfDate(sorted, d)
  {
    if sorted == [] || sorted[0].date <= c.date {
      OfDateCons(c, sorted, d);
    } else {
      var rest := sorted[1..];
      NewestFirstTail(sorted);
      assert Insert(c, sorted) == [sorted[0]] + Insert(c, rest);
      InsertStable(c, rest, d);
      PassOver(sorted[0], c, rest, Insert(c, rest), d);
      assert sorted == [sorted[0]] + rest;
    }
  }

  lemma NewestFirstTail(cs: seq<Cancellation>)
    requires NewestFirst(cs) && cs != []
    ensures NewestFirst(cs[1..])
  {
    forall i, j | 0 <= i < j < |cs| - 1 ensures cs[1..][i].date >= cs[1..][j].date {
      assert cs[1..][i] == cs[i + 1] && cs[1..][j] == cs[j + 1];
    }
  }

  lemma ConsNewest(h: Cancellation, rest: seq<Cancellation>)
    requires NewestFirst(rest) && forall x :: x in rest ==> h.date >= x.date
    ensures NewestFirst([h] + rest)
  {
    forall i, j | 0 <= i < j < |rest| + 1 ensures ([h] + rest)[i].date >= ([h] + rest)[j].date {
      assert ([h] + rest)[j] == rest[j - 1];
      if i > 0 {
        assert ([h] + rest)[i] == rest[i - 1];
      }
    }
  }

  function SortNewestFirst(cs: seq<Cancellation>): (r: seq<Cancellation>)
    ensures NewestFirst(r) && multiset(r) == multiset(cs)
  {
    if cs == [] then []
    else
      assert cs == [cs[0]] + cs[1..];
      Insert(cs[0], SortNewestFirst(cs[1..]))
  }

  /** The sort is stable: records of one date keep their order. */
  lemma {:induction false} SortStable(cs: seq<Cancellation>, d: int)
    ensures OfDate(SortNewestFirst(cs), d) == OfDate(cs, d)
  {
    if cs != [] {
      SortStable(cs[1..], d);
      InsertStable(cs[0], SortNewestFirst(cs[1..]), d);
      assert cs == [cs[0]] + cs[1..];
      OfDateCons(cs[0], cs[1..], d);
    }
  }

  lemma SortStableAll(cs: seq<Cancellation>)
    ensures forall d :: OfDate(SortNewestFirst(cs), d) == OfDate(cs, d)
  {
    forall d {
      SortStable(cs, d);
    }
  }

  /** The cards the cancellations section shows: exactly the records whose
      flag equals the checkbox, newest first, records of one date in their
      stored order. */
  function Shown(cs: seq<Cancellation>, showArchived: bool): (r: seq<Cancellation>)
    ensures NewestFirst(r)
    ensures multiset(r) == multiset(WithFlag(cs, showArchived))
    ensures forall c :: c in r <==> c in cs && c.archived == showArchived
    ensures forall d :: OfDate(r, d) == OfDate(WithFlag(cs, showArchived), d)
  {
    var r := SortNewestFirst(WithFlag(cs, showArchived));
    assert forall c :: c in r <==> c in multiset(r);
    SortStableAll(WithFlag(cs, showArchived));
    r
  }

  /** The "no cancellations" message shows exactly when no record has the
      checkbox's flag. */
  lemma EmptyMessageIff(cs: seq<Cancellation>, showArchived: bool)
    ensures Shown(cs, showArchived) == [] <==> forall c :: c in cs ==> c.archived != showArchived
  {
    var r := Shown(cs, showArchived);
    if r != [] {
      assert r[0] in r;
    }
  }

  /** Every record is on exactly one of the two lists. */
  lemma ListsPartition(cs: seq<Cancellation>)
    ensures multiset(Shown(cs, true)) + multiset(Shown(cs, false)) == multiset(cs)
  {
    PartitionFlags(cs);
  }

  lemma {:induction false} PartitionFlags(cs: seq<Cancellation>)
    ensures multiset(WithFlag(cs, true)) + multiset(WithFlag(cs, false)) == multiset(cs)
  {
    if cs != [] {
      PartitionFlags(cs[1..]);
      assert cs == [cs[0]] + cs[1..];
    }
  }

  // ---- the chat widget -----------------------------------------------------------------

  /** The chat widget of customer.js: the last message count, whether the
      panel is open, the `unread` mark and the badge text (`None` when
      hidden). */
  class CustomerChat {
    var prevCount: int
    var chatOpen: bool
    var unread: bool
    var badge: Option<int>

    /** An open panel never carries the unread mark, and a shown badge
        counts at least one new message. */
    predicate Valid()
      reads this
    {
      (chatOpen ==> !unread) && (badge.Some? ==> badge.value > 0)
    }

    constructor ()
      ensures Valid() && prevCount == 0 && !chatOpen && !unread && badge.None?
    {
      prevCount := 0;
      chatOpen := false;
      unread := false;
      badge := None;
    }

    /** `loadChat` after fetching `count` messages: with new messages and
        the panel closed, the widget is marked unread and the badge shows
        how many; otherwise the badge is hidden (the mark stays). The count
        is remembered either way. */
    method LoadChat(count: nat)
      requires Valid()
      modifies this
      ensures Valid() && prevCount == count && chatOpen == old(chatOpen)
      ensures (count > old(prevCount) && !chatOpen) ==> unread && badge == Some(count - old(prevCount))
      ensures !(count > old(prevCount) && !chatOpen) ==> unread == old(unread) && badge.None?
    {
      var newMessages := count - prevCount;
      if newMessages > 0 && !chatOpen {
        unread := true;
        badge := Some(newMessages);
      } else {
        badge := None;
      }
      prevCount := count;
    }

    /** A click on the header toggles the panel; opening clears the mark. */
    method ToggleHeader()
      requires Valid()
      modifies this
      ensures Valid() && chatOpen == !old(chatOpen) && prevCount == old(prevCount) && badge == old(badge)
      ensures unread == (old(unread) && !chatOpen)
    {
      chatOpen := !chatOpen;
      if chatOpen {
        unread := false;
      }
    }

    /** The close button closes the panel and leaves the rest. */
    method Close()
      requires Valid()
      modifies this
      ensures Valid() && !chatOpen && unread == old(unread)
      ensures prevCount == old(prevCount) && badge == old(badge)
    {
      chatOpen := false;
    }
  }

  /** The chat widget of fleet.js: no badge, only the unread mark. */
  class FleetChat {
    var prevCount: int
    var chatOpen: bool
    var unread: bool

    predicate Valid()
      reads this
    {
      chatOpen ==> !unread
    }

    constructor ()
      ensures Valid() && prevCount == 0 && !chatOpen && !unread
    {
      prevCount := 0;
      chatOpen := false;
      unread := false;
    }

    /** `loadChat`: the mark is added when the count grew while the panel
        is closed; the count is always remembered. */
    method LoadChat(count: nat)
      requires Valid()
      modifies this
      ensures Valid() && prevCount == count && chatOpen == old(chatOpen)
      ensures unread == (old(unread) || (count > old(prevCount) && !chatOpen))
    {
      if count > prevCount && !chatOpen {
        unread := true;
      }
      prevCount := count;
    }

    /** A `conversation_update` event: the mark is added at once when the
        panel is closed, then the history (of `count` messages) is loaded. */
    method OnConversationUpdate(count: nat)
      requires Valid()
      modifies this
      ensures Valid() && prevCount == count && chatOpen == old(chatOpen)
      ensures unread == (old(unread) || !chatOpen)
    {
      if !chatOpen {
        unread := true;
      }
      LoadChat(count);
    }

    method ToggleHeader()
      requires Valid()
      modifies this
      ensures Valid() && chatOpen == !old(chatOpen) && prevCount == old(prevCount)
      ensures unread == (old(unread) && !chatOpen)
    {
      chatOpen := !chatOpen;
      if chatOpen {
        unread := false;
      }
    }

    method Close()
      requires Valid()
      modifies this
      ensures Valid() && !chatOpen && unread == old(unread) && prevCount == old(prevCount)
    {
      chatOpen := false;
    }
  }
}
