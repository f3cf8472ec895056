/** The variants of the same handlers in mainServer.js: registration
    normalisation, the new schedule document (with the workflow fields the
    office uses) and the cancellation of a schedule. The slot list and the
    archive toggle are shared with server.js (`Slots.Availability`,
    `Appointments.ToggleArchive`). */
module MainServer {
  import opened Common
  import opened Decimal
  import opened Calendar
  import opened Records
  import opened Appointments
  import ApiServer

  // ---- POST /api/register --------------------------------------------------

  /** `Array.isArray(v) ? v : [v]`, then `map(Number)`. */
  function Intervals(f: IntervalsField): (r: seq<Option<int>>)
    ensures f.Listed? ==> r == Numbers(f.items)
    ensures f.Single? ==> r == [ToNumber(f.item)]
  {
    match f
    case Listed(items) => Numbers(items)
    case Single(v) => Numbers([v])
  }

  /** Intervals written out as numbers come back as those numbers, sent as
      a list or as a single value. */
  lemma IntervalsRoundTrip(xs: seq<int>)
    ensures Intervals(Listed(seq(|xs|, i requires 0 <= i < |xs| => Str(IntText(xs[i])))))
            == seq(|xs|, i requires 0 <= i < |xs| => Some(xs[i]))
    ensures |xs| == 1 ==> Intervals(Single(Str(IntText(xs[0])))) == [Some(xs[0])]
  {
    NumbersRoundTrip(xs);
    if |xs| == 1 {
      NumberOfIntText(xs[0]);
    }
  }

  /** The stored vehicle of mainServer.js: text fields are copied as sent,
      the year is `+v.year`, `interval` and `baseInterval` are the first
      interval (or 0), and no mileage is stored. */
  function Normalise(v: RawVehicle): (r: Vehicle)
    ensures r.brand == v.brand && r.model == v.model && r.plateLast3 == v.plateLast3
    ensures r.engine == v.engine && r.color == v.color
    ensures r.vin == OrElse(v.vin, "") && r.year == ToNumber(v.year)
    ensures r.serviceIntervals == Intervals(v.serviceIntervals)
    ensures r.interval == r.baseInterval == FirstOrZero(r.serviceIntervals)
    ensures r.milage.None?
  {
    var nums := Intervals(v.serviceIntervals);
    Vehicle(v.brand, v.engine, v.model, v.color, v.plateLast3, OrElse(v.vin, ""),
            ToNumber(v.year), nums, FirstOrZero(nums), FirstOrZero(nums), None)
  }

  /** The two servers store the same interval for every request. Their
      interval lists differ only for a missing single value, which server.js
      reads as 0 and mainServer.js as NaN. */
  lemma IntervalsAgree(v: RawVehicle)
    ensures Normalise(v).interval == ApiServer.Normalise(v).interval
    ensures (Normalise(v).serviceIntervals == ApiServer.Normalise(v).serviceIntervals)
              <==> v.serviceIntervals != Single(Undefined)
  {
    var f := v.serviceIntervals;
    if f.Single? && !TruthyScalar(f.item) {
      match f.item
      case Str(t) => assert Trim(t) == "";
      case _ =>
    }
  }

  // ---- POST /api/schedule ---------------------------------------------------

  const AwaitingReason: string := "awaiting Reason"

  /** A vehicle as mainServer.js books it: the filters coerced to booleans,
      the service address defaulting to the client address, and the vehicle
      description taken from the request. */
  function Booked(vs: seq<RequestVehicle>, clientAddress: Option<string>): (r: seq<BookedVehicle>)
    ensures |r| == |vs|
    ensures forall i :: 0 <= i < |vs| ==>
              r[i].vehicleId == vs[i].vehicleId && r[i].serviceId == vs[i].serviceId
              && r[i].oilType == vs[i].oilType && r[i].price == vs[i].price
              && r[i].airFilter == Bool(TruthyScalar(vs[i].airFilter))
              && r[i].cabinFilter == Bool(TruthyScalar(vs[i].cabinFilter))
              && r[i].serviceAddress == (if Truthy(vs[i].serviceAddress) then vs[i].serviceAddress else clientAddress)
              && r[i].info == vs[i].info
  {
    seq(|vs|, i requires 0 <= i < |vs| =>
      var v := vs[i];
      BookedVehicle(v.vehicleId, v.serviceId, v.oilType, v.price,
                    Bool(ToBool(v.airFilter)), Bool(ToBool(v.cabinFilter)),
                    if Truthy(v.serviceAddress) then v.serviceAddress else clientAddress, v.info))
  }

  /** The document mainServer.js inserts: not confirmed, not processed, not
      on route, started or finished, not secured or reserved, with the reason
      "awaiting Reason"; no `paid` field is written. */
  function NewSchedule(userId: string, user: Option<Profile>, req: ScheduleRequest): (r: Outcome<Schedule>)
    ensures user.None? ==> r == Failed(404)
    ensures user.Some? && !IdsValid(req.vehicles) ==> r == Failed(500)
    ensures r.Done? <==> user.Some? && IdsValid(req.vehicles)
    ensures r.Done? ==>
              var s := r.value;
              s.confirmed == Some(false) && s.processed == Some(false)
              && s.onRoute == Some(false) && s.started == Some(false) && s.finished == Some(false)
              && s.secured == Some(false) && s.reserved == Some(false) && s.paid.None?
              && s.reason == Some(AwaitingReason)
              && s.userId == userId && s.accountType == Some(OrElse(user.value.accountType, "Customer"))
              && s.customerName == user.value.fullName && s.email == user.value.email
              && s.date == req.date && s.time == req.time && s.total == req.total
              && s.clientAddress == req.clientAddress
              && s.vehicles == Booked(req.vehicles, req.clientAddress) && |s.vehicles| == |req.vehicles|
              && forall i :: 0 <= i < |s.vehicles| ==> s.vehicles[i].serviceAddress.Some? || !Truthy(req.clientAddress)
  {
    if user.None? then Failed(404)
    else if !IdsValid(req.vehicles) then Failed(500)
    else
      var p := user.value;
      var blank := BlankSchedule(userId, Some(OrElse(p.accountType, "Customer")), p.fullName, p.email,
                                 req, Booked(req.vehicles, req.clientAddress));
      Done(blank.(reason := Some(AwaitingReason), confirmed := Some(false), processed := Some(false),
                  onRoute := Some(false), started := Some(false), finished := Some(false),
                  secured := Some(false), reserved := Some(false)))
  }

  /** True when the request names the vehicle. */
  predicate Requested(req: ScheduleRequest, id: string) {
    exists k :: 0 <= k < |req.vehicles| && req.vehicles[k].vehicleId == id
  }

  /** Both servers book exactly the vehicles of the request: a vehicle id
      is booked by the new schedule if and only if the request names it. */
  lemma NewScheduleBooksRequested(userId: string, user: Option<Profile>, req: ScheduleRequest, id: string)
    requires user.Some? && IdsValid(req.vehicles)
    ensures Books(ApiServer.NewSchedule(userId, user, req).value, id) <==> Requested(req, id)
    ensures Books(NewSchedule(userId, user, req).value, id) <==> Requested(req, id)
  {
    var a := ApiServer.NewSchedule(userId, user, req).value;
    var m := NewSchedule(userId, user, req).value;
    assert forall k :: 0 <= k < |req.vehicles| ==> a.vehicles[k].vehicleId == req.vehicles[k].vehicleId;
    assert forall k :: 0 <= k < |req.vehicles| ==> m.vehicles[k].vehicleId == req.vehicles[k].vehicleId;
  }

  /** The two servers disagree on one initial flag: server.js books
      confirmed and mainServer.js unconfirmed; both book unprocessed and
      unsecured. */
  lemma InitialFlagsCompared(userId: string, user: Option<Profile>, req: ScheduleRequest)
    requires user.Some? && IdsValid(req.vehicles)
    ensures ApiServer.NewSchedule(userId, user, req).Done? && NewSchedule(userId, user, req).Done?
    ensures ApiServer.NewSchedule(userId, user, req).value.confirmed
              != NewSchedule(userId, user, req).value.confirmed
    ensures ApiServer.NewSchedule(userId, user, req).value.processed
              == NewSchedule(userId, user, req).value.processed == Some(false)
  {
  }

  // ---- DELETE /api/schedule/:id -------------------------------------------------

  /** The record mainServer.js pushes for one cancelled vehicle: the vehicle
      description as the schedule stored it, and not archived. */
  function Entry(v: BookedVehicle, services: map<string, Option<string>>, now: int): (c: Cancellation)
    ensures c.date == now && !c.archived && c.info == v.info
    ensures c.serviceName == ApiServer.ServiceName(services, v.serviceId)
  {
    Cancellation(now, ApiServer.ServiceName(services, v.serviceId), v.info, false)
  }

  function Entries(vs: seq<BookedVehicle>, services: map<string, Option<string>>, now: int): (r: seq<Cancellation>)
    ensures |r| == |vs|
    ensures forall i :: 0 <= i < |vs| ==> r[i] == Entry(vs[i], services, now)
  {
    seq(|vs|, i requires 0 <= i < |vs| => Entry(vs[i], services, now))
  }

  /** The status of `DELETE /api/schedule/:id` in mainServer.js: the checks
      of server.js without the one for the owner's profile. */
  function CancelStatus(schedules: map<string, Schedule>, id: string, sessionUser: string, today: Date): (status: int)
    requires Valid(today)
    ensures status == 200 <==> IsObjectId(id) && id in schedules && schedules[id].userId == sessionUser
                               && !TooLate(schedules[id].date, today)
  {
    if !IsObjectId(id) then 400
    else if id !in schedules then 404
    else if schedules[id].userId != sessionUser then 403
    else if TooLate(schedules[id].date, today) then 400
    else 200
  }

  /** The servers answer alike except when the owner's profile is gone:
      server.js then refuses with 404, mainServer.js deletes the schedule. */
  lemma CancelStatusCompared(schedules: map<string, Schedule>, customers: map<string, Profile>,
                             id: string, user: string, today: Date)
    requires Valid(today)
    ensures (CancelStatus(schedules, id, user, today) != ApiServer.CancelStatus(schedules, customers, id, user, today))
              <==> CancelStatus(schedules, id, user, today) == 200 && user !in customers
  {
  }

  /** `DELETE /api/schedule/:id` in mainServer.js. On success one record per
      vehicle is appended to the owner's cancellations (when the owner has a
      profile; the update matches nothing otherwise) and the schedule is
      deleted; on a refusal nothing changes. */
  method Cancel(db: Store, id: string, sessionUser: string, today: Date, now: int)
    returns (status: int)
    requires Valid(today)
    modifies db
    ensures status == CancelStatus(old(db.schedules), id, sessionUser, today)
    ensures db.services == old(db.services) && db.conversations == old(db.conversations)
    ensures status != 200 ==> db.schedules == old(db.schedules) && db.customers == old(db.customers)
    ensures status == 200 ==>
              var s := old(db.schedules)[id];
              db.schedules == old(db.schedules) - {id}
              && (s.userId !in old(db.customers) ==> db.customers == old(db.customers))
              && (s.userId in old(db.customers) ==>
                    var p := old(db.customers)[s.userId];
                    db.customers == old(db.customers)[s.userId :=
                      p.(cancellations := p.cancellations + Entries(s.vehicles, old(db.services), now))])
  {
    status := CancelStatus(db.schedules, id, sessionUser, today);
    if status != 200 {
      return;
    }
    var s := db.schedules[id];
    var uid := s.userId;
    ghost var all := Entries(s.vehicles, db.services, now);
    if uid in db.customers {
      var p := db.customers[uid];
      assert p.cancellations + all[..0] == p.cancellations;
      assert db.customers[uid := p.(cancellations := p.cancellations + all[..0])] == db.customers;
    }
    for k := 0 to |s.vehicles|
      invariant db.schedules == old(db.schedules) && db.services == old(db.services)
      invariant db.conversations == old(db.conversations)
      invariant uid !in old(db.customers) ==> db.customers == old(db.customers)
      invariant uid in old(db.customers) ==>
                  var p := old(db.customers)[uid];
                  db.customers == old(db.customers)[uid := p.(cancellations := p.cancellations + all[..k])]
    {
      var entry := Entry(s.vehicles[k], db.services, now);
      assert all[..k + 1] == all[..k] + [entry];
      if uid in db.customers {
        var cur := db.customers[uid];
        assert cur.cancellations + [entry] == old(db.customers)[uid].cancellations + all[..k + 1];
        db.customers := db.customers[uid := cur.(cancellations := cur.cancellations + [entry])];
      }
    }
    assert all[..|s.vehicles|] == all;
    db.schedules := db.schedules - {id};
  }
}
