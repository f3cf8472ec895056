/** The request handlers of server.js that carry rules: registration
    normalisation of vehicles, the new schedule document, the chat send
    with its bot reply, and the cancellation of a schedule. The slot list
    of `/api/availability` is `Slots.Availability`; the archive toggle is
    `Appointments.ToggleArchive`. The database is the `Store`; the session
    user, "today" and "now" are parameters. */
module ApiServer {
  import opened Common
  import opened Decimal
  import opened Calendar
  import opened Records
  import opened Appointments

  // ---- POST /api/register --------------------------------------------------

  /** `serviceIntervals` as server.js reads it: an array maps through
      `Number`, any other value `v` becomes `[Number(v || 0)]`. */
  function Intervals(f: IntervalsField): (r: seq<Option<int>>)
    ensures f.Listed? ==> r == Numbers(f.items)
    ensures f.Single? ==> |r| == 1
    ensures f.Single? && TruthyScalar(f.item) ==> r == [ToNumber(f.item)]
    ensures f.Single? && !TruthyScalar(f.item) ==> r == [Some(0)]
  {
    match f
    case Listed(items) => Numbers(items)
    case Single(v) => [ToNumber(if TruthyScalar(v) then v else Int(0))]
  }

  /** `Number(v) || 0`. */
  function NumberOrZero(v: Scalar): (r: int)
    ensures r != 0 ==> ToNumber(v) == Some(r)
  {
    match ToNumber(v)
    case None => 0
    case Some(n) => n
  }

  /** The stored form of a registered vehicle: text fields default to "",
      the year to 0, `interval` and `baseInterval` are the first service
      interval (or 0), and the mileage starts at 0. */
  function Normalise(v: RawVehicle): (r: Vehicle)
    ensures r.brand == Some(OrElse(v.brand, "")) && r.model == Some(OrElse(v.model, ""))
    ensures r.plateLast3 == Some(OrElse(v.plateLast3, "")) && r.vin == OrElse(v.vin, "")
    ensures r.serviceIntervals == Intervals(v.serviceIntervals)
    ensures r.interval == r.baseInterval == FirstOrZero(r.serviceIntervals)
    ensures r.engine == Some(OrElse(v.engine, "")) && r.color == Some(OrElse(v.color, ""))
    ensures r.year == Some(NumberOrZero(v.year)) && r.milage == Some(0)
    ensures r.year.value != 0 ==> ToNumber(v.year) == r.year
  {
    var nums := Intervals(v.serviceIntervals);
    Vehicle(Some(OrElse(v.brand, "")), Some(OrElse(v.engine, "")), Some(OrElse(v.model, "")),
            Some(OrElse(v.color, "")), Some(OrElse(v.plateLast3, "")), OrElse(v.vin, ""),
            Some(NumberOrZero(v.year)), nums, FirstOrZero(nums), FirstOrZero(nums), Some(0))
  }

  /** Whichever form the page sends, intervals written out as numbers come
      back as those numbers: a list of texts element by element, a single
      text as a one-element list. */
  lemma IntervalsRoundTrip(xs: seq<int>)
    ensures Intervals(Listed(seq(|xs|, i requires 0 <= i < |xs| => Str(IntText(xs[i])))))
            == seq(|xs|, i requires 0 <= i < |xs| => Some(xs[i]))
    ensures |xs| == 1 ==> Intervals(Single(Str(IntText(xs[0])))) == [Some(xs[0])]
  {
    NumbersRoundTrip(xs);
    if |xs| == 1 {
      NumberOfIntText(xs[0]);
      assert |IntText(xs[0])| > 0;
    }
  }

  /** A single interval value that is not an array is kept as a one-element
      list holding its number (or 0), and the vehicle's interval is that
      number. */
  lemma SingleIntervalWrapped(v: RawVehicle, n: int)
    requires v.serviceIntervals == Single(Int(n))
    ensures Normalise(v).serviceIntervals == [Some(n)]
    ensures Normalise(v).interval == n
  {
  }

  // ---- POST /api/schedule ---------------------------------------------------

  /** `user.vehicles.find(x => String(x._id) === String(id))`. */
  function FindVehicle(vs: seq<ProfileVehicle>, id: string): (r: Option<ProfileVehicle>)
    ensures r.Some? ==> r.value in vs && r.value.id == id
    ensures r.None? ==> forall k :: 0 <= k < |vs| ==> vs[k].id != id
  {
    if vs == [] then None
    else if vs[0].id == id then Some(vs[0])
    else FindVehicle(vs[1..], id)
  }

  /** Brand, model and plate of a booked vehicle as server.js copies them
      from the customer's profile, each defaulting to "". */
  function ProfileInfo(vs: seq<ProfileVehicle>, id: string): (info: VehicleInfo)
    ensures FindVehicle(vs, id).None? ==> info == VehicleInfo(Some(""), Some(""), Some(""))
    ensures FindVehicle(vs, id).Some? ==>
              var p := FindVehicle(vs, id).value;
              info == VehicleInfo(Some(OrElse(p.brand, "")), Some(OrElse(p.model, "")), Some(OrElse(p.plateLast3, "")))
  {
    match FindVehicle(vs, id)
    case None => VehicleInfo(Some(""), Some(""), Some(""))
    case Some(p) => VehicleInfo(Some(OrElse(p.brand, "")), Some(OrElse(p.model, "")), Some(OrElse(p.plateLast3, "")))
  }

  function Booked(vs: seq<RequestVehicle>, profile: seq<ProfileVehicle>): (r: seq<BookedVehicle>)
    ensures |r| == |vs|
    ensures forall i :: 0 <= i < |vs| ==>
              r[i].vehicleId == vs[i].vehicleId && r[i].serviceId == vs[i].serviceId
              && r[i].oilType == vs[i].oilType && r[i].price == vs[i].price
              && r[i].airFilter == vs[i].airFilter && r[i].cabinFilter == vs[i].cabinFilter
              && r[i].serviceAddress == vs[i].serviceAddress
              && r[i].info == ProfileInfo(profile, vs[i].vehicleId)
  {
    seq(|vs|, i requires 0 <= i < |vs| =>
      var v := vs[i];
      BookedVehicle(v.vehicleId, v.serviceId, v.oilType, v.price, v.airFilter, v.cabinFilter,
                    v.serviceAddress, ProfileInfo(profile, v.vehicleId)))
  }

  /** When the profile's vehicle ids are distinct, each booked vehicle
      carries the brand, model and plate of the profile vehicle with its id,
      "" standing in for a missing or empty field. */
  lemma BookedCopiesProfile(vs: seq<RequestVehicle>, profile: seq<ProfileVehicle>, i: nat, k: nat)
    requires i < |vs| && k < |profile| && profile[k].id == vs[i].vehicleId
    requires forall a, b :: 0 <= a < b < |profile| ==> profile[a].id != profile[b].id
    ensures Booked(vs, profile)[i].info.brand == Some(OrElse(profile[k].brand, ""))
    ensures Booked(vs, profile)[i].info.model == Some(OrElse(profile[k].model, ""))
    ensures Booked(vs, profile)[i].info.plateLast3 == Some(OrElse(profile[k].plateLast3, ""))
  {
    FindVehicleUnique(profile, k);
  }

  /** With distinct ids, looking a profile vehicle up by its id finds it. */
  lemma FindVehicleUnique(profile: seq<ProfileVehicle>, k: nat)
    requires k < |profile|
    requires forall a, b :: 0 <= a < b < |profile| ==> profile[a].id != profile[b].id
    ensures FindVehicle(profile, profile[k].id) == Some(profile[k])
  {
    var r := FindVehicle(profile, profile[k].id);
    var j :| 0 <= j < |profile| && profile[j] == r.value;
    assert profile[j].id == profile[k].id;
  }

  /** The document server.js inserts for a booking: an unknown user is 404,
      an id that is not an ObjectId ends in 500; otherwise the schedule
      starts confirmed, unpaid, unprocessed, not secured and not reserved,
      with the account type defaulting to "Customer". */
  function NewSchedule(userId: string, user: Option<Profile>, req: ScheduleRequest): (r: Outcome<Schedule>)
    ensures user.None? ==> r == Failed(404)
    ensures user.Some? && !IdsValid(req.vehicles) ==> r == Failed(500)
    ensures r.Done? <==> user.Some? && IdsValid(req.vehicles)
    ensures r.Done? ==>
              var s := r.value;
              s.confirmed == Some(true) && s.paid == Some(false) && s.processed == Some(false)
              && s.secured == Some(false) && s.reserved == Some(false)
              && s.userId == userId && s.accountType == Some(OrElse(user.value.accountType, "Customer"))
              && s.customerName == user.value.fullName && s.email == user.value.email
              && s.date == req.date && s.time == req.time && s.total == req.total
              && s.clientAddress == req.clientAddress
              && s.vehicles == Booked(req.vehicles, user.value.vehicles) && |s.vehicles| == |req.vehicles|
              && s.fleetNotified.None? && s.invoiceId == NoInvoice && s.completed.None?
  {
    if user.None? then Failed(404)
    else if !IdsValid(req.vehicles) then Failed(500)
    else
      var p := user.value;
      var blank := BlankSchedule(userId, Some(OrElse(p.accountType, "Customer")), p.fullName, p.email,
                                 req, Booked(req.vehicles, p.vehicles));
      Done(blank.(confirmed := Some(true), paid := Some(false), processed := Some(false),
                  secured := Some(false), reserved := Some(false)))
  }

  // ---- POST /api/chat/send: the bot reply -------------------------------------

  const BotPrefix: string := "\U{1F916} "
  const DefaultReply: string := "\U{1F916} Gracias por tu mensaje. Un asesor te atender\U{E1} pronto."

  /** The reply after a customer message: a matched answer, prefixed with
      the robot; with no (or an empty) answer, the default greeting when
      the conversation now holds exactly one customer message; otherwise
      none. `answer` is what the pattern matching found. */
  function ReplyText(answer: Option<string>, customerMessages: nat): (r: Option<string>)
    ensures Truthy(answer) ==> r == Some(BotPrefix + answer.value)
    ensures !Truthy(answer) ==> (r.Some? <==> customerMessages == 1)
    ensures !Truthy(answer) && r.Some? ==> r.value == DefaultReply
  {
    if Truthy(answer) then Some(BotPrefix + answer.value)
    else if customerMessages == 1 then Some(DefaultReply)
    else None
  }

  /** Without a matching answer, a reply goes out exactly on the
      customer's first message in the conversation. */
  lemma DefaultOnlyFirst(answer: Option<string>, before: seq<Message>, text: string, imageUrl: string)
    requires !Truthy(answer)
    ensures (ReplyText(answer, CustomerCount(before + [Message(Customer, text, imageUrl)])).Some?)
              <==> CustomerCount(before) == 0
  {
    var one := [Message(Customer, text, imageUrl)];
    CustomerCountAppend(before, one);
    assert one[..|one| - 1] == [];
    assert CustomerCount(one) == CustomerCount([]) + 1;
  }

  /** `POST /api/chat/send`: a session user that is not an ObjectId is 401;
      otherwise the customer's message is appended to their conversation
      (created when missing), which is un-archived, and the bot reply, if
      any, is appended after it as an office message. */
  method ChatSend(db: Store, sessionUser: Option<string>, text: Option<string>, imageUrl: string,
                  answer: Option<string>)
    returns (status: int, reply: Option<string>)
    modifies db
    ensures db.schedules == old(db.schedules) && db.customers == old(db.customers)
    ensures db.services == old(db.services)
    ensures !(Truthy(sessionUser) && IsObjectId(sessionUser.value)) ==>
              status == 401 && reply.None? && db.conversations == old(db.conversations)
    ensures Truthy(sessionUser) && IsObjectId(sessionUser.value) ==>
              var u := sessionUser.value;
              var before := if u in old(db.conversations) then old(db.conversations)[u].messages else [];
              var sent := before + [Message(Customer, OrElse(text, ""), imageUrl)];
              status == 200
              && reply == ReplyText(answer, CustomerCount(sent))
              && db.conversations == old(db.conversations)[u := Conversation(
                   sent + (if reply.Some? then [Message(Office, reply.value, "")] else []), false)]
  {
    if !Truthy(sessionUser) || !IsObjectId(sessionUser.value) {
      return 401, None;
    }
    var u := sessionUser.value;
    var before := if u in db.conversations then db.conversations[u].messages else [];
    var sent := before + [Message(Customer, OrElse(text, ""), imageUrl)];
    ghost var start := db.conversations;
    db.conversations := db.conversations[u := Conversation(sent, false)];
    reply := ReplyText(answer, CustomerCount(sent));
    if reply.Some? {
      var answered := sent + [Message(Office, reply.value, "")];
      db.conversations := db.conversations[u := Conversation(answered, false)];
      assert db.conversations == start[u := Conversation(answered, false)];
    } else {
      assert sent + [] == sent;
    }
    status := 200;
  }

  // ---- DELETE /api/schedule/:id -------------------------------------------------

  const UnknownService: string := "Servicio desconocido"
  const UnknownVehicle: string := "Desconocido"

  /** The service name of a cancellation record: the service's name when the
      service exists and has a non-empty name, otherwise "Servicio desconocido". */
  function ServiceName(services: map<string, Option<string>>, id: string): (name: string)
    ensures name != ""
  {
    if id in services && Truthy(services[id]) then services[id].value else UnknownService
  }

  /** The record server.js pushes for one cancelled vehicle: brand and model
      from the customer's profile, defaulting to "Desconocido", the plate
      defaulting to "", and not archived. */
  function Entry(v: BookedVehicle, profile: seq<ProfileVehicle>, services: map<string, Option<string>>,
                 now: int): (c: Cancellation)
    ensures c.date == now && !c.archived && c.serviceName == ServiceName(services, v.serviceId)
    ensures FindVehicle(profile, v.vehicleId).None? ==>
              c.info == VehicleInfo(Some(UnknownVehicle), Some(UnknownVehicle), Some(""))
    ensures FindVehicle(profile, v.vehicleId).Some? ==>
              var p := FindVehicle(profile, v.vehicleId).value;
              c.info == VehicleInfo(Some(OrElse(p.brand, UnknownVehicle)), Some(OrElse(p.model, UnknownVehicle)),
                                    Some(OrElse(p.plateLast3, "")))
    ensures c.info.brand.Some? && c.info.brand.value != "" && c.info.model.Some? && c.info.model.value != ""
  {
    var p := FindVehicle(profile, v.vehicleId);
    var brand := if p.Some? then p.value.brand else None;
    var model := if p.Some? then p.value.model else None;
    var plate := if p.Some? then p.value.plateLast3 else None;
    Cancellation(now, ServiceName(services, v.serviceId),
                 VehicleInfo(Some(OrElse(brand, UnknownVehicle)), Some(OrElse(model, UnknownVehicle)),
                             Some(OrElse(plate, ""))), false)
  }

  /** One record per vehicle of the schedule, in the schedule's order. */
  function Entries(vs: seq<BookedVehicle>, profile: seq<ProfileVehicle>,
                   services: map<string, Option<string>>, now: int): (r: seq<Cancellation>)
    ensures |r| == |vs|
    ensures forall i :: 0 <= i < |vs| ==> r[i] == Entry(vs[i], profile, services, now)
    ensures forall i :: 0 <= i < |r| ==> !r[i].archived && r[i].date == now
  {
    seq(|vs|, i requires 0 <= i < |vs| => Entry(vs[i], profile, services, now))
  }

  /** The status `DELETE /api/schedule/:id` answers with, from the state
      before the request: 400 for an id that is not an ObjectId, 404 for an
      unknown schedule, 403 for someone else's schedule, 400 when the
      appointment is less than a day away, 404 when the owner's profile is
      gone, else 200. */
  function CancelStatus(schedules: map<string, Schedule>, customers: map<string, Profile>,
                        id: string, sessionUser: string, today: Date): (status: int)
    requires Valid(today)
    ensures status == 200 <==>
              (IsObjectId(id) && id in schedules && schedules[id].userId == sessionUser
               && !TooLate(schedules[id].date, today) && sessionUser in customers)
    ensures !IsObjectId(id) ==> status == 400
    ensures IsObjectId(id) && id !in schedules ==> status == 404
    ensures IsObjectId(id) && id in schedules && schedules[id].userId != sessionUser ==> status == 403
    ensures (IsObjectId(id) && id in schedules && schedules[id].userId == sessionUser
             && TooLate(schedules[id].date, today)) ==> status == 400
    ensures (IsObjectId(id) && id in schedules && schedules[id].userId == sessionUser
             && !TooLate(schedules[id].date, today) && sessionUser !in customers) ==> status == 404
    ensures status == 200 || status == 400 || status == 403 || status == 404
  {
    if !IsObjectId(id) then 400
    else if id !in schedules then 404
    else if schedules[id].userId != sessionUser then 403
    else if TooLate(schedules[id].date, today) then 400
    else if schedules[id].userId !in customers then 404
    else 200
  }

  /** The page only offers the button for an appointment a day or more
      ahead, and for such an appointment of one's own the deadline never
      refuses: the request succeeds unless the id or the profile is bad. */
  lemma ButtonLeadsToSuccess(schedules: map<string, Schedule>, customers: map<string, Profile>,
                             id: string, user: string, today: Date)
    requires Valid(today) && IsObjectId(id) && id in schedules && schedules[id].userId == user
    requires user in customers && CancelButtonShown(schedules[id].date, today)
    ensures CancelStatus(schedules, customers, id, user, today) == 200
  {
    ButtonAgreesWithServer(schedules[id].date, today);
  }

  /** `DELETE /api/schedule/:id` in server.js. On success one record per
      vehicle is appended to the owner's cancellations and the schedule is
      deleted; on any refusal nothing changes. */
  method Cancel(db: Store, id: string, sessionUser: string, today: Date, now: int)
    returns (status: int)
    requires Valid(today)
    modifies db
    ensures status == CancelStatus(old(db.schedules), old(db.customers), id, sessionUser, today)
    ensures db.services == old(db.services) && db.conversations == old(db.conversations)
    ensures status != 200 ==> db.schedules == old(db.schedules) && db.customers == old(db.customers)
    ensures status == 200 ==>
              var s := old(db.schedules)[id];
              var p := old(db.customers)[s.userId];
              db.schedules == old(db.schedules) - {id}
              && db.customers == old(db.customers)[s.userId :=
                   p.(cancellations := p.cancellations + Entries(s.vehicles, p.vehicles, old(db.services), now))]
  {
    status := CancelStatus(db.schedules, db.customers, id, sessionUser, today);
    if status != 200 {
      return;
    }
    var s := db.schedules[id];
    var uid := s.userId;
    var p := db.customers[uid];
    ghost var all := Entries(s.vehicles, p.vehicles, db.services, now);
    assert p.cancellations + all[..0] == p.cancellations;
    assert old(db.customers)[uid := p.(cancellations := p.cancellations + all[..0])] == old(db.customers);
    for k := 0 to |s.vehicles|
      invariant db.schedules == old(db.schedules) && db.services == old(db.services)
      invariant db.conversations == old(db.conversations)
      invariant db.customers == old(db.customers)[uid := p.(cancellations := p.cancellations + all[..k])]
    {
      var entry := Entry(s.vehicles[k], p.vehicles, db.services, now);
      var cur := db.customers[uid];
      assert all[..k + 1] == all[..k] + [entry];
      assert cur.cancellations + [entry] == p.cancellations + all[..k + 1];
      db.customers := db.customers[uid := cur.(cancellations := cur.cancellations + [entry])];
    }
    assert all[..|s.vehicles|] == all;
    db.schedules := db.schedules - {id};
  }
}
