/** The booking page (schedule.js): reading document ids, the price each
    editable row shows, which rows are editable, and the request body the
    page sends. The slot list, the same-day filter and the earliest date
    are `Slots`'. Amounts are whole cents. */
module SchedulePage {
  import opened Common
  import opened Records

  // ---- idOf -------------------------------------------------------------------

  /** An `_id` as the JSON of the API carries it: missing, a plain string,
      or an extended-JSON object whose `$oid` may be missing. */
  datatype RawId = Missing | Text(s: string) | Extended(oid: Option<string>)

  /** `item._id?.$oid || item._id || ''`. An object without a usable `$oid`
      is truthy and comes back as it is; only a missing id becomes "". */
  function IdOf(id: RawId): (r: RawId)
    ensures r.Extended? <==> id.Extended? && !Truthy(id.oid)
    ensures r.Extended? ==> r == id
    ensures id.Extended? && Truthy(id.oid) ==> r == Text(id.oid.value)
    ensures id.Text? ==> r == id
    ensures id.Missing? ==> r == Text("")
  {
    match id
    case Extended(oid) => if Truthy(oid) then Text(oid.value) else id
    case Text(s) => if s != "" then id else Text("")
    case Missing => Text("")
  }

  /** Reading an id twice gives what reading it once gives. */
  lemma IdOfIdempotent(id: RawId)
    ensures IdOf(IdOf(id)) == IdOf(id)
  {
  }

  /** Two ids that read as the same text name the same document, whichever
      of the two forms each was stored in. */
  lemma IdOfForms(oid: string)
    requires oid != ""
    ensures IdOf(Extended(Some(oid))) == IdOf(Text(oid))
  {
  }

  // ---- updatePrice ---------------------------------------------------------------

  /** A service of `/api/services`: its id, its price range (missing parts
      are `None`) and its flat `priceFrom`/`priceTo`, in cents. */
  datatype Service = Service(id: RawId, rangeFrom: Option<int>, rangeTo: Option<int>,
                             priceFrom: Option<int>, priceTo: Option<int>)

  const AirFilterCents: int := 2500
  const CabinFilterCents: int := 2000

  /** `a || b` on optional numbers: `a` unless it is missing or 0. */
  function OrNumber(a: Option<int>, b: Option<int>): (r: Option<int>)
    ensures a.Some? && a.value != 0 ==> r == a
    ensures !(a.Some? && a.value != 0) ==> r == b
  {
    if a.Some? && a.value != 0 then a else b
  }

  /** `services.find(x => idOf(x) === choice)`. */
  function FindService(services: seq<Service>, choice: string): (r: Option<Service>)
    ensures r.Some? ==> r.value in services && IdOf(r.value.id) == Text(choice)
    ensures r.None? <==> forall s :: s in services ==> IdOf(s.id) != Text(choice)
  {
    if services == [] then None
    else if IdOf(services[0].id) == Text(choice) then Some(services[0])
    else FindService(services[1..], choice)
  }

  /** The base price of a service for an oil type: the range's "from"
      price (or `priceFrom`) for Blend, its "to" price (or `priceTo`) for
      any other oil; `None` when that price is missing (NaN). */
  function BasePrice(svc: Service, oil: string): (r: Option<int>)
    ensures oil == "Blend" ==> r == OrNumber(svc.rangeFrom, svc.priceFrom)
    ensures oil != "Blend" ==> r == OrNumber(svc.rangeTo, svc.priceTo)
  {
    if oil == "Blend" then OrNumber(svc.rangeFrom, svc.priceFrom)
    else OrNumber(svc.rangeTo, svc.priceTo)
  }

  /** `updatePrice`: the price a row shows. It is 0 until both a known
      service and an oil type are chosen; then it is the base price plus the
      filter surcharges, NaN (`None`) when the base price is missing. */
  function UpdatePrice(services: seq<Service>, choice: string, oil: string, air: bool, cabin: bool)
    : (price: Option<int>)
    ensures (FindService(services, choice).None? || oil == "") ==> price == Some(0)
    ensures FindService(services, choice).Some? && oil != "" ==>
              (price.Some? <==> BasePrice(FindService(services, choice).value, oil).Some?)
  {
    var svc := FindService(services, choice);
    if svc.Some? && oil != "" then
      match BasePrice(svc.value, oil)
      case None => None
      case Some(base) =>
        Some(base + (if air then AirFilterCents else 0) + (if cabin then CabinFilterCents else 0))
    else Some(0)
  }

  /** The air filter adds exactly $25 and the cabin filter exactly $20 to a
      priced row, and nothing while no service or oil is chosen. */
  lemma FilterSurcharges(services: seq<Service>, choice: string, oil: string)
    ensures var none := UpdatePrice(services, choice, oil, false, false);
            var air := UpdatePrice(services, choice, oil, true, false);
            var cabin := UpdatePrice(services, choice, oil, false, true);
            var both := UpdatePrice(services, choice, oil, true, true);
            (FindService(services, choice).Some? && oil != "" && none.Some? ==>
               air == Some(none.value + 2500) && cabin == Some(none.value + 2000)
               && both == Some(none.value + 4500))
            && (none.None? ==> air.None? && cabin.None? && both.None?)
            && ((FindService(services, choice).None? || oil == "") ==> air == cabin == both == Some(0))
  {
  }

  /** Without a usable range price the flat price is charged: `priceFrom`
      for Blend, `priceTo` for every other oil. */
  lemma FlatPriceFallback(services: seq<Service>, choice: string, oil: string, svc: Service)
    requires FindService(services, choice) == Some(svc) && oil != ""
    requires oil == "Blend" ==> svc.rangeFrom.None? || svc.rangeFrom.value == 0
    requires oil != "Blend" ==> svc.rangeTo.None? || svc.rangeTo.value == 0
    ensures UpdatePrice(services, choice, oil, false, false)
              == (if oil == "Blend" then svc.priceFrom else svc.priceTo)
  {
  }

  /** What a row sends as its price (`parseFloat(...) || 0` of what
      `updatePrice` showed): nothing until a known service and an oil are
      chosen or when the base price is missing, otherwise the base price
      with the filter surcharges. */
  lemma SentPriceOfRow(services: seq<Service>, choice: string, oil: string, air: bool, cabin: bool)
    ensures var svc := FindService(services, choice);
            (svc.None? || oil == "" || BasePrice(svc.value, oil).None?)
              ==> SentPrice(UpdatePrice(services, choice, oil, air, cabin)) == 0
    ensures var svc := FindService(services, choice);
            (svc.Some? && oil != "" && BasePrice(svc.value, oil).Some?)
              ==> SentPrice(UpdatePrice(services, choice, oil, air, cabin))
                    == BasePrice(svc.value, oil).value + (if air then 2500 else 0) + (if cabin then 2000 else 0)
  {
  }

  /** A chosen service priced in its range is charged the range price for
      the oil: "from" for Blend, "to" for every other oil. */
  lemma RangePriceCharged(services: seq<Service>, choice: string, oil: string, svc: Service)
    requires FindService(services, choice) == Some(svc) && oil != ""
    requires svc.rangeFrom.Some? && svc.rangeFrom.value != 0
    requires svc.rangeTo.Some? && svc.rangeTo.value != 0
    ensures UpdatePrice(services, choice, oil, false, false)
              == (if oil == "Blend" then svc.rangeFrom else svc.rangeTo)
  {
  }

  // ---- the rows and the request body -------------------------------------------------

  /** A row of the vehicles table: the vehicle id, whether it was drawn
      with disabled inputs, and what its inputs hold. `price` is the shown
      price (`None` when it reads NaN). */
  datatype Row = Row(vid: string, disabled: bool, date: string, time: string,
                     service: string, oil: string, air: bool, cabin: bool,
                     address: string, price: Option<int>)

  /** A row is drawn disabled exactly when some schedule already books its
      vehicle. */
  predicate DrawnDisabled(schedules: seq<Schedule>, vid: string) {
    exists s :: s in schedules && Books(s, vid)
  }

  /** The rows that are sent: those without disabled inputs, in table order. */
  function EditableRows(rows: seq<Row>): (r: seq<Row>)
    ensures forall x :: x in r <==> x in rows && !x.disabled
    ensures |r| <= |rows|
  {
    if rows == [] then []
    else
      var rest := EditableRows(rows[1..]);
      assert forall x :: x in rows <==> x == rows[0] || x in rows[1..];
      if rows[0].disabled then rest else [rows[0]] + rest
  }

  /** Filtering keeps table order: the rows of a table split in two are
      those of the first part followed by those of the second. */
  lemma {:induction false} EditableRowsAppend(a: seq<Row>, b: seq<Row>)
    ensures EditableRows(a + b) == EditableRows(a) + EditableRows(b)
    ensures |a| == 1 ==> EditableRows(a) == if a[0].disabled then [] else a
  {
    if a != [] {
      var rest := a[1..];
      var head := if a[0].disabled then [] else [a[0]];
      assert a == [a[0]] + rest;
      assert a + b == [a[0]] + (rest + b);
      calc {
        EditableRows(a + b);
        { EditableRowsCons(a[0], rest + b); }
        head + EditableRows(rest + b);
        { EditableRowsAppend(rest, b); }
        head + (EditableRows(rest) + EditableRows(b));
        (head + EditableRows(rest)) + EditableRows(b);
        { EditableRowsCons(a[0], rest); }
        EditableRows(a) + EditableRows(b);
      }
      if |a| == 1 {
        assert rest == [];
      }
    } else {
      assert a + b == b;
    }
  }

  lemma EditableRowsCons(x: Row, rows: seq<Row>)
    ensures EditableRows([x] + rows) == (if x.disabled then [] else [x]) + EditableRows(rows)
  {
    assert ([x] + rows)[1..] == rows;
  }

  // ---- the vehicle description of a row -----------------------------------------

  /** A vehicle of the page's vehicle list (`__VEHICLES__`): its id and its
      `vehicleInfo` object, which may be missing. */
  datatype PageVehicle = PageVehicle(id: RawId, vehicleInfo: Option<VehicleInfo>)

  /** `{}`: a description whose every field is undefined. */
  const NoInfo: VehicleInfo := VehicleInfo(None, None, None)

  /** `x.vehicleInfo || {}`. */
  function Described(x: PageVehicle): VehicleInfo {
    if x.vehicleInfo.Some? then x.vehicleInfo.value else NoInfo
  }

  /** `__VEHICLES__.find(x => idOf(x) === vid)?.vehicleInfo || {}`: the
      description of the first listed vehicle whose id reads as `vid`, or
      `{}` when no listed vehicle has that id or the one found has no
      description. */
  function InfoOf(known: seq<PageVehicle>, vid: string): (r: VehicleInfo)
    ensures (forall x :: x in known ==> IdOf(x.id) != Text(vid)) ==> r == NoInfo
  {
    if known == [] then NoInfo
    else if IdOf(known[0].id) == Text(vid) then Described(known[0])
    else InfoOf(known[1..], vid)
  }

  /** `find` stops at the first match: the description sent is that of the
      first listed vehicle whose id reads as `vid`. */
  lemma {:induction false} InfoOfFirst(known: seq<PageVehicle>, vid: string, i: nat)
    requires i < |known| && IdOf(known[i].id) == Text(vid)
    requires forall j :: 0 <= j < i ==> IdOf(known[j].id) != Text(vid)
    ensures InfoOf(known, vid) == Described(known[i])
  {
    if i > 0 {
      assert IdOf(known[0].id) != Text(vid);
      assert known[1..][i - 1] == known[i];
      forall j | 0 <= j < i - 1 ensures IdOf(known[1..][j].id) != Text(vid) {
        assert known[1..][j] == known[j + 1];
      }
      InfoOfFirst(known[1..], vid, i - 1);
    }
  }

  /** With distinct ids on the vehicle list, a row sends the description
      of its own vehicle. */
  lemma InfoOfListed(known: seq<PageVehicle>, i: nat)
    requires i < |known|
    requires forall j, k :: 0 <= j < k < |known| ==> IdOf(known[j].id) != IdOf(known[k].id)
    requires IdOf(known[i].id).Text?
    ensures InfoOf(known, IdOf(known[i].id).s) == Described(known[i])
  {
    InfoOfFirst(known, IdOf(known[i].id).s, i);
  }

  /** A vehicle of the request body. */
  datatype SentVehicle = SentVehicle(vehicleId: string, serviceId: string, oilType: string,
                                     airFilter: bool, cabinFilter: bool,
                                     serviceAddress: Option<string>, vehicleInfo: VehicleInfo,
                                     price: int)

  /** The request body of `POST /api/schedule`. */
  datatype Payload = Payload(date: string, time: string, clientAddress: Option<string>,
                             total: int, vehicles: seq<SentVehicle>)

  /** `addr.trim() || profileAddress`: a typed address is sent trimmed, so
      with no white space around it and never empty; a blank one falls
      back to the profile's address. */
  function AddressOr(typed: string, profileAddress: Option<string>): (r: Option<string>)
    ensures Trim(typed) != "" ==> r.Some? && r.value != "" && Trim(r.value) == r.value
    ensures Trim(typed) != "" ==> r == Some(Trim(typed))
    ensures Trim(typed) == "" ==> r == profileAddress
  {
    TrimUnchanged(Trim(typed));
    if Trim(typed) != "" then Some(Trim(typed)) else profileAddress
  }

  /** `parseFloat(span.textContent) || 0`: the shown price, 0 for NaN. */
  function SentPrice(shown: Option<int>): (p: int)
    ensures shown.Some? ==> p == shown.value
    ensures shown.None? ==> p == 0
  {
    if shown.Some? then shown.value else 0
  }

  /** The vehicle a row sends: its id, choices and price, its typed address
      or the profile's, and the description the vehicle list holds for it. */
  function Sent(row: Row, profileAddress: Option<string>, known: seq<PageVehicle>): (v: SentVehicle)
    ensures v.vehicleId == row.vid && v.serviceId == row.service && v.oilType == row.oil
    ensures v.airFilter == row.air && v.cabinFilter == row.cabin
    ensures v.serviceAddress == AddressOr(row.address, profileAddress)
    ensures v.vehicleInfo == InfoOf(known, row.vid)
    ensures v.price == SentPrice(row.price)
  {
    SentVehicle(row.vid, row.service, row.oil, row.air, row.cabin,
                AddressOr(row.address, profileAddress), InfoOf(known, row.vid), SentPrice(row.price))
  }

  /** `vehicles.reduce((sum, v) => sum + v.price, 0)`. */
  function Total(vs: seq<SentVehicle>): int {
    if vs == [] then 0 else Total(vs[..|vs| - 1]) + vs[|vs| - 1].price
  }

  lemma {:induction false} TotalAppend(a: seq<SentVehicle>, b: seq<SentVehicle>)
    ensures Total(a + b) == Total(a) + Total(b)
    decreases |b|
  {
    if b == [] {
      assert a + b == a;
    } else {
      assert (a + b)[..|a + b| - 1] == a + b[..|b| - 1];
      TotalAppend(a, b[..|b| - 1]);
    }
  }

  /** A total of non-negative prices is at least each of them. */
  lemma {:induction false} TotalBounds(vs: seq<SentVehicle>, i: nat)
    requires i < |vs| && forall k :: 0 <= k < |vs| ==> vs[k].price >= 0
    ensures Total(vs) >= vs[i].price
    decreases |vs|
  {
    if i < |vs| - 1 {
      TotalBounds(vs[..|vs| - 1], i);
    } else {
      TotalNonNegative(vs[..|vs| - 1]);
    }
  }

  lemma {:induction false} TotalNonNegative(vs: seq<SentVehicle>)
    requires forall k :: 0 <= k < |vs| ==> vs[k].price >= 0
    ensures Total(vs) >= 0
    decreases |vs|
  {
    if vs != [] {
      TotalNonNegative(vs[..|vs| - 1]);
    }
  }

  /** `sendFleetSchedule` and `payWithPayPal` build the same body: `None`
      when no row is editable (the page shows an error and sends nothing);
      otherwise one vehicle per editable row, in order, with date, time and
      client address taken from the first editable row and the total of
      the vehicles' prices. */
  function BuildPayload(rows: seq<Row>, profileAddress: Option<string>, known: seq<PageVehicle>)
    : (p: Option<Payload>)
    ensures p.None? <==> forall r :: r in rows ==> r.disabled
    ensures p.Some? ==>
              var editable := EditableRows(rows);
              |p.value.vehicles| == |editable| > 0
              && (forall i :: 0 <= i < |editable| ==>
                    p.value.vehicles[i] == Sent(editable[i], profileAddress, known))
              && p.value.date == editable[0].date && p.value.time == editable[0].time
              && p.value.clientAddress == AddressOr(editable[0].address, profileAddress)
              && p.value.total == Total(p.value.vehicles)
  {
    var editable := EditableRows(rows);
    NothingEditable(rows);
    if editable == [] then None
    else
      var vs := SentAll(editable, profileAddress, known);
      Some(Payload(editable[0].date, editable[0].time, AddressOr(editable[0].address, profileAddress),
                   Total(vs), vs))
  }

  /** No row is left to send exactly when every row is disabled. */
  lemma NothingEditable(rows: seq<Row>)
    ensures EditableRows(rows) == [] <==> forall r :: r in rows ==> r.disabled
  {
    var editable := EditableRows(rows);
    if editable != [] {
      assert editable[0] in editable;
    }
  }

  /** The vehicle of each editable row, in table order. */
  function SentAll(editable: seq<Row>, profileAddress: Option<string>, known: seq<PageVehicle>)
    : (vs: seq<SentVehicle>)
    ensures |vs| == |editable|
    ensures forall i :: 0 <= i < |vs| ==> vs[i] == Sent(editable[i], profileAddress, known)
  {
    seq(|editable|, i requires 0 <= i < |editable| => Sent(editable[i], profileAddress, known))
  }

  /** The body carries exactly the vehicles of the editable rows: a vehicle
      id is sent if and only if an editable row holds it. */
  lemma PayloadVehicleIds(rows: seq<Row>, profileAddress: Option<string>,
                          known: seq<PageVehicle>, p: Payload, id: string)
    requires BuildPayload(rows, profileAddress, known) == Some(p)
    ensures (exists v :: v in p.vehicles && v.vehicleId == id)
              <==> (exists r :: r in rows && !r.disabled && r.vid == id)
  {
    var editable := EditableRows(rows);
    SentIds(editable, p.vehicles, profileAddress, known, id);
    if exists r :: r in rows && !r.disabled && r.vid == id {
      var r :| r in rows && !r.disabled && r.vid == id;
      assert r in editable;
    }
  }

  lemma SentIds(editable: seq<Row>, vs: seq<SentVehicle>, profileAddress: Option<string>,
                known: seq<PageVehicle>, id: string)
    requires |vs| == |editable|
    requires forall i :: 0 <= i < |vs| ==> vs[i] == Sent(editable[i], profileAddress, known)
    ensures (exists v :: v in vs && v.vehicleId == id) <==> (exists r :: r in editable && r.vid == id)
  {
    if exists v :: v in vs && v.vehicleId == id {
      var v :| v in vs && v.vehicleId == id;
      SentIdHasRow(editable, vs, profileAddress, known, v);
    }
    if exists r :: r in editable && r.vid == id {
      var r :| r in editable && r.vid == id;
      RowHasSentId(editable, vs, profileAddress, known, r);
    }
  }

  lemma SentIdHasRow(editable: seq<Row>, vs: seq<SentVehicle>, profileAddress: Option<string>,
                     known: seq<PageVehicle>, v: SentVehicle)
    requires |vs| == |editable|
    requires forall i :: 0 <= i < |vs| ==> vs[i] == Sent(editable[i], profileAddress, known)
    requires v in vs
    ensures exists r :: r in editable && r.vid == v.vehicleId
  {
    var i :| 0 <= i < |vs| && vs[i] == v;
    assert editable[i] in editable && editable[i].vid == v.vehicleId;
  }

  lemma RowHasSentId(editable: seq<Row>, vs: seq<SentVehicle>, profileAddress: Option<string>,
                     known: seq<PageVehicle>, r: Row)
    requires |vs| == |editable|
    requires forall i :: 0 <= i < |vs| ==> vs[i] == Sent(editable[i], profileAddress, known)
    requires r in editable
    ensures exists v :: v in vs && v.vehicleId == r.vid
  {
    var i :| 0 <= i < |editable| && editable[i] == r;
    assert vs[i] in vs && vs[i].vehicleId == r.vid;
  }

  /** The vehicle sent for each editable row carries its id and its shown
      price. */
  lemma SentFromRows(editable: seq<Row>, vs: seq<SentVehicle>, profileAddress: Option<string>,
                     known: seq<PageVehicle>)
    requires |vs| == |editable|
    requires forall i :: 0 <= i < |vs| ==> vs[i] == Sent(editable[i], profileAddress, known)
    ensures forall i :: 0 <= i < |vs| ==> vs[i].vehicleId == editable[i].vid
    ensures forall i :: 0 <= i < |vs| ==> vs[i].price == SentPrice(editable[i].price)
  {
  }

  /** A vehicle that already has an appointment is never booked again: when
      the rows were drawn from the user's schedules, every sent vehicle is
      one that no schedule books. */
  lemma BookedVehiclesNotResent(rows: seq<Row>, schedules: seq<Schedule>, profileAddress: Option<string>,
                                known: seq<PageVehicle>)
    requires forall r :: r in rows ==> r.disabled == DrawnDisabled(schedules, r.vid)
    requires BuildPayload(rows, profileAddress, known).Some?
    ensures forall v :: v in BuildPayload(rows, profileAddress, known).value.vehicles ==>
              forall s :: s in schedules ==> !Books(s, v.vehicleId)
  {
    var editable := EditableRows(rows);
    var vs := BuildPayload(rows, profileAddress, known).value.vehicles;
    forall i | 0 <= i < |editable| ensures !DrawnDisabled(schedules, editable[i].vid) {
      EditableRowIsEnabled(rows, i);
    }
    SentNotBooked(editable, vs, profileAddress, known, schedules);
  }

  lemma SentNotBooked(editable: seq<Row>, vs: seq<SentVehicle>, profileAddress: Option<string>,
                      known: seq<PageVehicle>, schedules: seq<Schedule>)
    requires |vs| == |editable|
    requires forall i :: 0 <= i < |vs| ==> vs[i] == Sent(editable[i], profileAddress, known)
    requires forall i :: 0 <= i < |editable| ==> !DrawnDisabled(schedules, editable[i].vid)
    ensures forall v :: v in vs ==> forall s :: s in schedules ==> !Books(s, v.vehicleId)
  {
    forall v | v in vs ensures forall s :: s in schedules ==> !Books(s, v.vehicleId) {
      var i :| 0 <= i < |vs| && vs[i] == v;
      assert v.vehicleId == editable[i].vid;
    }
  }

  /** Each row of `EditableRows(rows)` is a row of the table that is not
      disabled. */
  lemma EditableRowIsEnabled(rows: seq<Row>, i: nat)
    requires i < |EditableRows(rows)|
    ensures EditableRows(rows)[i] in rows && !EditableRows(rows)[i].disabled
  {
    assert EditableRows(rows)[i] in EditableRows(rows);
  }

  /** With no negative price shown, the total is at least the price of
      each sent vehicle. */
  lemma TotalCoversEachVehicle(rows: seq<Row>, profileAddress: Option<string>,
                               known: seq<PageVehicle>, p: Payload, i: nat)
    requires BuildPayload(rows, profileAddress, known) == Some(p)
    requires forall r :: r in rows ==> r.price.None? || r.price.value >= 0
    requires i < |p.vehicles|
    ensures p.total >= p.vehicles[i].price
  {
    var editable := EditableRows(rows);
    SentFromRows(editable, p.vehicles, profileAddress, known);
    forall k | 0 <= k < |p.vehicles| ensures p.vehicles[k].price >= 0 {
      EditableRowIsEnabled(rows, k);
      assert editable[k].price.None? || editable[k].price.value >= 0;
    }
    TotalBounds(p.vehicles, i);
  }
}
