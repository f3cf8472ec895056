/** The documents the servers, pages and workers share: schedules, customer
    profiles with their vehicles and cancellation records, chat
    conversations, and the MongoDB collections that hold them.

    A field that a document may lack is an `Option`; a JavaScript value
    whose type varies (form data, JSON bodies) is a `Scalar`. Amounts of
    money are whole cents and timestamps are whole milliseconds. */
module Records {
  import opened Common
  import opened Decimal

  /** A loosely typed request value: `undefined`, `null`, a string, an
      integral number or a boolean. */
  datatype Scalar = Undefined | Null | Str(s: string) | Int(i: int) | Bool(b: bool)

  /** JavaScript truthiness of a request value. */
  predicate TruthyScalar(v: Scalar) {
    match v
    case Undefined => false
    case Null => false
    case Str(s) => s != ""
    case Int(i) => i != 0
    case Bool(b) => b
  }

  /** `Number(v)`; `None` stands for NaN. Strings are read after trimming:
      "" is 0, decimal digits with an optional sign are their value, and
      every other text is NaN. */
  function ToNumber(v: Scalar): (r: Option<int>)
    ensures v == Null ==> r == Some(0)
    ensures v == Undefined ==> r == None
    ensures v.Int? ==> r == Some(v.i)
  {
    match v
    case Undefined => None
    case Null => Some(0)
    case Str(s) => NumberText(s)
    case Int(i) => Some(i)
    case Bool(b) => Some(if b then 1 else 0)
  }

  function NumberText(s: string): (r: Option<int>)
    ensures Trim(s) == "" ==> r == Some(0)
    ensures r.Some? && Trim(s) != "" ==> IsDigit(Trim(s)[|Trim(s)| - 1])
  {
    NumberOfTrimmed(Trim(s))
  }

  /** `Number` on text without white space around it: "" is 0, an
      optionally signed run of decimal digits is its value, anything else
      is NaN. */
  function NumberOfTrimmed(t: string): (r: Option<int>)
    ensures t == "" ==> r == Some(0)
    ensures r.Some? && t != "" ==> IsDigit(t[|t| - 1])
  {
    if t == "" then Some(0)
    else if AllDigits(t) then Some(Value(t))
    else if |t| >= 2 && t[0] == '-' && AllDigits(t[1..]) then Some(0 - Value(t[1..]))
    else if |t| >= 2 && t[0] == '+' && AllDigits(t[1..]) then Some(Value(t[1..]))
    else None
  }

  /** `Number(String(i)) == i` for every integer. */
  lemma NumberOfIntText(i: int)
    ensures ToNumber(Str(IntText(i))) == Some(i)
  {
    var t := IntText(i);
    assert IsDigit(t[|t| - 1]) && (t[0] == '-' || IsDigit(t[0]));
    VisibleNotSpace(t[0]);
    VisibleNotSpace(t[|t| - 1]);
    TrimUnchanged(t);
    NumberOfIntTextTrimmed(i);
  }

  lemma NumberOfIntTextTrimmed(i: int)
    ensures NumberOfTrimmed(IntText(i)) == Some(i)
  {
    var t := IntText(i);
    NatTextRoundTrip(if i < 0 then -i else i);
    if i < 0 {
      assert t[1..] == NatText(-i);
      assert !IsDigit(t[0]);
    }
  }

  /** `!!v`. */
  function ToBool(v: Scalar): (b: bool)
    ensures b <==> TruthyScalar(v)
  {
    TruthyScalar(v)
  }

  /** `!!v` agrees with `Number(v) != 0` on every value that is not a
      string; on text the two part: "0" is truthy yet reads as 0. */
  lemma ToBoolAndNumber(v: Scalar)
    ensures !v.Str? ==> (ToBool(v) <==> ToNumber(v).Some? && ToNumber(v).value != 0)
    ensures ToBool(Str("0")) && ToNumber(Str("0")) == Some(0)
  {
    NumberOfIntText(0);
    assert IntText(0) == "0";
  }

  // ---- schedules ------------------------------------------------------------

  /** The vehicle description a booking carries. */
  datatype VehicleInfo = VehicleInfo(brand: Option<string>, model: Option<string>, plateLast3: Option<string>)

  /** One vehicle of a schedule. */
  datatype BookedVehicle = BookedVehicle(
    vehicleId: string, serviceId: string, oilType: Option<string>, price: Option<int>,
    airFilter: Scalar, cabinFilter: Scalar, serviceAddress: Option<string>, info: VehicleInfo)

  /** The `invoiceId` field: missing, `null`, or a text. */
  datatype Invoice = NoInvoice | NullInvoice | InvoiceId(id: string)

  /** A document of the `schedules` collection. `completed` is the
      `Completed` field the back office sets. */
  datatype Schedule = Schedule(
    userId: string, accountType: Option<string>, customerName: Option<string>,
    email: Option<string>, date: Option<string>, time: Option<string>, total: Option<int>,
    clientAddress: Option<string>, vehicles: seq<BookedVehicle>, reason: Option<string>,
    confirmed: Option<bool>, paid: Option<bool>, processed: Option<bool>,
    secured: Option<bool>, reserved: Option<bool>,
    onRoute: Option<bool>, started: Option<bool>, finished: Option<bool>,
    fleetNotified: Option<bool>, fleetProcessedNotified: Option<bool>,
    invoiceSentNotified: Option<bool>, invoiceId: Invoice,
    completed: Option<bool>, completedBy: Option<string>, serviceMilage: Option<int>)

  /** True when some vehicle of the schedule has the given id. */
  predicate Books(s: Schedule, vehicleId: string) {
    exists k :: 0 <= k < |s.vehicles| && s.vehicles[k].vehicleId == vehicleId
  }

  // ---- customer profiles ----------------------------------------------------

  datatype ProfileVehicle = ProfileVehicle(
    id: string, brand: Option<string>, model: Option<string>, plateLast3: Option<string>,
    milage: Option<int>)

  /** An entry of a profile's `cancellations`; `date` is the moment of the
      cancellation in milliseconds. */
  datatype Cancellation = Cancellation(date: int, serviceName: string, info: VehicleInfo, archived: bool)

  datatype Profile = Profile(
    accountType: Option<string>, fullName: Option<string>, email: Option<string>,
    address: Option<string>, vehicles: seq<ProfileVehicle>, cancellations: seq<Cancellation>)

  // ---- chat -----------------------------------------------------------------

  datatype Sender = Customer | Office | OtherSender(name: string)

  datatype Message = Message(sender: Sender, text: string, imageUrl: string)

  /** A document of the `conversations` collection, found by its user. */
  datatype Conversation = Conversation(messages: seq<Message>, archived: bool)

  /** Number of messages the customer sent. */
  function CustomerCount(ms: seq<Message>): (n: nat)
    ensures n <= |ms|
  {
    if ms == [] then 0
    else CustomerCount(ms[..|ms| - 1]) + (if ms[|ms| - 1].sender == Customer then 1 else 0)
  }

  /** Counting distributes over concatenation. */
  lemma {:induction false} CustomerCountAppend(a: seq<Message>, b: seq<Message>)
    ensures CustomerCount(a + b) == CustomerCount(a) + CustomerCount(b)
    decreases |b|
  {
    if b == [] {
      assert a + b == a;
    } else {
      assert (a + b)[..|a + b| - 1] == a + b[..|b| - 1];
      CustomerCountAppend(a, b[..|b| - 1]);
    }
  }

  // ---- requests ---------------------------------------------------------------

  /** `ObjectId.isValid(s)` as bson 4 and 5 define it: twelve characters,
      or twenty-four hexadecimal digits. A character stands for one byte
      here (bson 5 asks for twelve UTF-8 bytes), and bson 6 drops the
      twelve-character form; the repository pins no driver version. */
  predicate IsObjectId(s: string) {
    |s| == 12 || (|s| == 24 && forall i :: 0 <= i < |s| ==> IsHexDigit(s[i]))
  }

  /** `ObjectId.isValid(s)` as bson 6 defines it: exactly twenty-four
      hexadecimal digits, the form in which ids are printed. */
  predicate IsHexObjectId(s: string) {
    |s| == 24 && forall i :: 0 <= i < |s| ==> IsHexDigit(s[i])
  }

  /** That rule accepts only texts of 12 or 24 characters, and any text of
      12 characters, hexadecimal or not. */
  lemma ObjectIdShapes(s: string)
    ensures IsObjectId(s) ==> |s| == 12 || |s| == 24
    ensures |s| == 12 ==> IsObjectId(s)
    ensures IsObjectId("not-an-id-!!") && !IsObjectId("0123456789abcdef0123456z")
  {
    var bad := "0123456789abcdef0123456z";
    assert !IsHexDigit(bad[23]);
  }

  /** The two driver generations agree on every printed id and differ
      exactly on the twelve-character texts, which only bson 4 and 5
      accept. */
  lemma ObjectIdVersions(s: string)
    ensures IsHexObjectId(s) ==> IsObjectId(s)
    ensures IsObjectId(s) && !IsHexObjectId(s) <==> |s| == 12
    ensures IsObjectId("not-an-id-!!") && !IsHexObjectId("not-an-id-!!")
  {
  }

  /** What a request handler ends with: a value, or an HTTP error status. */
  datatype Outcome<T> = Done(value: T) | Failed(status: int)

  /** `serviceIntervals` as the registration form sends it: an array, or
      one value. */
  datatype IntervalsField = Listed(items: seq<Scalar>) | Single(item: Scalar)

  /** A vehicle of a registration request, as parsed from the form. */
  datatype RawVehicle = RawVehicle(
    brand: Option<string>, engine: Option<string>, model: Option<string>,
    color: Option<string>, plateLast3: Option<string>, vin: Option<string>,
    year: Scalar, serviceIntervals: IntervalsField)

  /** A vehicle as the registration handlers store it; a number that is
      NaN is `None`. */
  datatype Vehicle = Vehicle(
    brand: Option<string>, engine: Option<string>, model: Option<string>,
    color: Option<string>, plateLast3: Option<string>, vin: string,
    year: Option<int>, serviceIntervals: seq<Option<int>>,
    interval: int, baseInterval: int, milage: Option<int>)

  /** `arr.map(n => Number(n))`. */
  function Numbers(items: seq<Scalar>): (r: seq<Option<int>>)
    ensures |r| == |items| && forall i :: 0 <= i < |items| ==> r[i] == ToNumber(items[i])
  {
    seq(|items|, i requires 0 <= i < |items| => ToNumber(items[i]))
  }

  /** Numbers written out as text read back through `Number` as themselves. */
  lemma NumbersRoundTrip(xs: seq<int>)
    ensures Numbers(seq(|xs|, i requires 0 <= i < |xs| => Str(IntText(xs[i]))))
            == seq(|xs|, i requires 0 <= i < |xs| => Some(xs[i]))
  {
    var texts := seq(|xs|, i requires 0 <= i < |xs| => Str(IntText(xs[i])));
    forall i | 0 <= i < |xs|
      ensures ToNumber(texts[i]) == Some(xs[i])
    {
      NumberOfIntText(xs[i]);
    }
  }

  /** `nums[0] || 0`: the first number when there is one and it is neither
      NaN nor 0, otherwise 0. */
  function FirstOrZero(nums: seq<Option<int>>): (r: int)
    ensures r != 0 ==> |nums| > 0 && nums[0] == Some(r)
    ensures r == 0 <==> |nums| == 0 || nums[0] == None || nums[0] == Some(0)
  {
    if |nums| > 0 && nums[0].Some? then nums[0].value else 0
  }

  /** A vehicle of a `POST /api/schedule` body. */
  datatype RequestVehicle = RequestVehicle(
    vehicleId: string, serviceId: string, oilType: Option<string>, price: Option<int>,
    airFilter: Scalar, cabinFilter: Scalar, serviceAddress: Option<string>, info: VehicleInfo)

  /** The body of `POST /api/schedule`. */
  datatype ScheduleRequest = ScheduleRequest(
    date: Option<string>, time: Option<string>, total: Option<int>,
    clientAddress: Option<string>, vehicles: seq<RequestVehicle>)

  /** True when every vehicle and service id of the request is an ObjectId
      (`new ObjectId(id)` throws otherwise). */
  predicate IdsValid(vs: seq<RequestVehicle>) {
    forall i :: 0 <= i < |vs| ==> IsObjectId(vs[i].vehicleId) && IsObjectId(vs[i].serviceId)
  }

  /** A schedule document with the given fields and no status field set. */
  function BlankSchedule(userId: string, accountType: Option<string>, customerName: Option<string>,
                         email: Option<string>, req: ScheduleRequest, vehicles: seq<BookedVehicle>): (s: Schedule)
    ensures s.userId == userId && s.accountType == accountType && s.vehicles == vehicles
    ensures s.customerName == customerName && s.email == email
    ensures s.date == req.date && s.time == req.time && s.total == req.total
    ensures s.clientAddress == req.clientAddress
    ensures s.fleetNotified.None? && s.fleetProcessedNotified.None? && s.invoiceSentNotified.None?
    ensures s.invoiceId == NoInvoice && s.completed.None?
  {
    Schedule(userId, accountType, customerName, email, req.date, req.time, req.total,
             req.clientAddress, vehicles, None, None, None, None, None, None, None, None, None,
             None, None, None, NoInvoice, None, None, None)
  }

  /** The collections of the application database. `services` maps a
      service id to its `name` field (which may be missing). */
  class Store {
    var schedules: map<string, Schedule>
    var customers: map<string, Profile>
    var services: map<string, Option<string>>
    var conversations: map<string, Conversation>

    constructor (schedules: map<string, Schedule>, customers: map<string, Profile>,
                 services: map<string, Option<string>>, conversations: map<string, Conversation>)
      ensures this.schedules == schedules && this.customers == customers
      ensures this.services == services && this.conversations == conversations
    {
      this.schedules := schedules;
      this.customers := customers;
      this.services := services;
      this.conversations := conversations;
    }
  }

  /** The order in which a query returns the documents with the ids in
      `ids`: each of them exactly once. */
  ghost predicate IsOrderOf(order: seq<string>, ids: set<string>) {
    (forall i, j :: 0 <= i < j < |order| ==> order[i] != order[j])
    && (forall id :: id in order <==> id in ids)
  }
}
