/** The fleet notifier worker (fleetNotifier.js): three passes over the
    schedules of fleet accounts, each sending one office message per
    schedule it selects and setting a one-shot flag so that the schedule is
    not selected again. */
module FleetNotifier {
  import opened Common
  import opened Decimal
  import opened Records

  // ---- sendMessage ------------------------------------------------------------

  /** The conversations after `sendMessage(userId, text)`: one office
      message with no image is pushed to the user's conversation, which is
      created (not archived) when missing. */
  function Posted(convs: map<string, Conversation>, userId: string, text: string): (r: map<string, Conversation>)
    ensures r.Keys == convs.Keys + {userId}
    ensures forall u :: u in convs && u != userId ==> r[u] == convs[u]
    ensures userId in convs ==> r[userId] == convs[userId].(messages := convs[userId].messages + [Message(Office, text, "")])
    ensures userId !in convs ==> r[userId] == Conversation([Message(Office, text, "")], false)
  {
    var c := if userId in convs then convs[userId] else Conversation([], false);
    convs[userId := c.(messages := c.messages + [Message(Office, text, "")])]
  }

  /** `sendMessage`; the socket notification that follows is not modelled. */
  method SendMessage(db: Store, userId: string, text: string)
    modifies db
    ensures db.conversations == Posted(old(db.conversations), userId, text)
    ensures db.schedules == old(db.schedules) && db.customers == old(db.customers)
    ensures db.services == old(db.services)
  {
    var c := if userId in db.conversations then db.conversations[userId] else Conversation([], false);
    db.conversations := db.conversations[userId := c.(messages := c.messages + [Message(Office, text, "")])];
  }

  // ---- the three passes -----------------------------------------------------------

  datatype Pass = PendingPass | ProcessedPass | InvoicePass

  predicate IsFleet(s: Schedule) {
    s.accountType == Some("Fleet")
  }

  /** `invoiceId: { $exists: true, $ne: '' }`: an id is present and is not
      the empty text; a `null` id is selected too. */
  function HasInvoice(inv: Invoice): (b: bool)
    ensures b <==> inv != NoInvoice && inv != InvoiceId("")
  {
    match inv
    case NoInvoice => false
    case NullInvoice => true
    case InvoiceId(id) => id != ""
  }

  /** The query of each pass. A flag counts as set only when it holds
      `true` (`$ne: true`). Only fleet schedules are selected, a processed
      one only once processed, an invoice one only with an invoice id. */
  function Selected(p: Pass, s: Schedule): (b: bool)
    ensures b ==> IsFleet(s)
    ensures b && p == ProcessedPass ==> s.processed == Some(true)
    ensures b && p == InvoicePass ==> s.invoiceId != NoInvoice
  {
    IsFleet(s) &&
    match p
    case PendingPass => s.fleetNotified != Some(true)
    case ProcessedPass => s.processed == Some(true) && s.fleetProcessedNotified != Some(true)
    case InvoicePass => HasInvoice(s.invoiceId) && s.invoiceSentNotified != Some(true)
  }

  /** The schedule after its pass's flag is set. The flag of one pass does
      not enter the query of another, and a flagged schedule is no longer
      selected by its own pass. */
  function Mark(p: Pass, s: Schedule): (r: Schedule)
    ensures !Selected(p, r)
    ensures forall q :: q != p ==> (Selected(q, r) <==> Selected(q, s))
    ensures r.userId == s.userId && r.accountType == s.accountType
  {
    match p
    case PendingPass => s.(fleetNotified := Some(true))
    case ProcessedPass => s.(fleetProcessedNotified := Some(true))
    case InvoicePass => s.(invoiceSentNotified := Some(true))
  }

  /** The ids a pass selects. */
  function SelectedIds(p: Pass, ss: map<string, Schedule>): (ids: set<string>)
    ensures forall id :: id in ids <==> id in ss && Selected(p, ss[id])
  {
    set id | id in ss && Selected(p, ss[id])
  }

  /** The schedules after the ids in `ids` have their pass's flag set. */
  function MarkAll(ss: map<string, Schedule>, p: Pass, ids: set<string>): (r: map<string, Schedule>)
    ensures r.Keys == ss.Keys
    ensures forall id :: id in ss ==> r[id] == if id in ids then Mark(p, ss[id]) else ss[id]
  {
    map id | id in ss :: if id in ids then Mark(p, ss[id]) else ss[id]
  }

  /** Flagging a set of ids takes exactly those ids out of the pass's
      selection and leaves the other passes' selections alone. */
  lemma MarkAllSelection(ss: map<string, Schedule>, p: Pass, ids: set<string>, q: Pass)
    ensures SelectedIds(p, MarkAll(ss, p, ids)) == SelectedIds(p, ss) - ids
    ensures q != p ==> SelectedIds(q, MarkAll(ss, p, ids)) == SelectedIds(q, ss)
  {
    var r := MarkAll(ss, p, ids);
    assert forall id :: id in SelectedIds(p, r) <==> id in SelectedIds(p, ss) - ids;
    if q != p {
      assert forall id :: id in SelectedIds(q, r) <==> id in SelectedIds(q, ss);
    }
  }

  /** The schedules after a whole pass. */
  function AfterPass(ss: map<string, Schedule>, p: Pass): (r: map<string, Schedule>)
    ensures r.Keys == ss.Keys
    ensures SelectedIds(p, r) == {}
  {
    var r := MarkAll(ss, p, SelectedIds(p, ss));
    assert forall id :: id in r ==> !Selected(p, r[id]);
    r
  }

  /** The first booked vehicle (`sched.vehicles?.[0]`), if any. */
  function FirstVehicle(s: Schedule): (v: Option<BookedVehicle>)
    ensures v.Some? <==> |s.vehicles| > 0
    ensures v.Some? ==> v.value == s.vehicles[0]
  {
    if |s.vehicles| > 0 then Some(s.vehicles[0]) else None
  }

  /** The text the pending pass sends: the greeting, the date, time,
      service and address of the schedule, and its total in dollars
      (`$${sched.total}`). A missing field prints as "undefined". The date,
      the time, the address and the total appear in it verbatim. */
  function PendingText(s: Schedule): (r: string)
    ensures Includes(r, Interpolated(s.date)) && Includes(r, Interpolated(s.time))
    ensures Includes(r, Address(FirstVehicle(s), s.clientAddress))
    ensures s.total.Some? ==> Includes(r, "$" + CentsText(s.total.value))
  {
    var v := FirstVehicle(s);
    PendingLayout(Interpolated(s.customerName), Interpolated(s.date), Interpolated(s.time),
                  VehicleDescription(v), Address(v, s.clientAddress),
                  "$" + (match s.total case Some(t) => CentsText(t) case None => "undefined"))
  }

  /** The template of the pending message, filled with the texts of its
      fields; each of the date, time, address and total is found in it. */
  function PendingLayout(name: string, date: string, time: string, service: string, address: string,
                         total: string): (r: string)
    ensures Includes(r, date) && Includes(r, time) && Includes(r, address) && Includes(r, total)
  {
    var a1 := "📋 Hola " + name + ", hemos recibido tu cita para el ";
    var a2 := a1 + date;
    var a3 := a2 + " a las ";
    var a4 := a3 + time;
    var line2 := ".\n🛠 Servicio: " + service + "\n📍 Dirección: ";
    var a5 := a4 + line2;
    var a6 := a5 + address;
    var a7 := a6 + "\n💰 Total estimado: ";
    var a8 := a7 + total;
    var r := a8 + "\n\n🔄 Tu solicitud está *pendiente de aprobación*. Te notificaremos en breve.";
    IncludesGrow(a1, [], date);
    IncludesGrow(a2, [date], " a las ");
    IncludesGrow(a3, [date], time);
    IncludesGrow(a4, [date, time], line2);
    IncludesGrow(a5, [date, time], address);
    IncludesGrow(a6, [date, time, address], "\n💰 Total estimado: ");
    IncludesGrow(a7, [date, time, address], total);
    IncludesGrow(a8, [date, time, address, total],
                 "\n\n🔄 Tu solicitud está *pendiente de aprobación*. Te notificaremos en breve.");
    r
  }

  /** The oil type of the first vehicle, or a placeholder. */
  function VehicleDescription(v: Option<BookedVehicle>): (r: string)
    ensures r != ""
    ensures v.Some? && Truthy(v.value.oilType) ==> r == v.value.oilType.value
  {
    if v.Some? && Truthy(v.value.oilType) then v.value.oilType.value else "vehículo sin detalles"
  }

  const NoAddress: string := "Dirección no especificada"

  /** The address of the message: the first vehicle's service address,
      else the client address, else a placeholder; never empty. */
  function Address(v: Option<BookedVehicle>, clientAddress: Option<string>): (r: string)
    ensures r != ""
    ensures v.Some? && Truthy(v.value.serviceAddress) ==> r == v.value.serviceAddress.value
    ensures !(v.Some? && Truthy(v.value.serviceAddress)) && Truthy(clientAddress) ==> r == clientAddress.value
    ensures !(v.Some? && Truthy(v.value.serviceAddress)) && !Truthy(clientAddress) ==> r == NoAddress
  {
    if v.Some? && Truthy(v.value.serviceAddress) then v.value.serviceAddress.value
    else if Truthy(clientAddress) then clientAddress.value
    else NoAddress
  }

  const ProcessedText: string :=
    "✅ Tu cita ha sido procesada. En breve recibirás una factura de PayPal. Tienes 30 días para realizar el pago."

  /** The text the invoice pass sends: the invoice id between asterisks
      and the PayPal link of the invoice (a `null` id is printed as
      "null"). */
  function InvoiceText(inv: Invoice): (r: string)
    ensures inv.InvoiceId? ==> Includes(r, "*" + inv.id + "*")
    ensures inv.InvoiceId? ==> Includes(r, "https://www.paypal.com/invoice/p/#" + inv.id)
  {
    var id := if inv.InvoiceId? then inv.id else "null";
    var head := "💳 Se ha generado tu factura de PayPal.\n\n🔗 Factura: ";
    var quoted := "*" + id + "*";
    var prompt := "\n📎 Puedes pagar directamente aquí:\n";
    var link := "https://www.paypal.com/invoice/p/#" + id;
    var tail := "\n\nTienes 30 días para completar el pago.";
    var r := head + quoted + (prompt + link + tail);
    IncludesMiddle(head, quoted, prompt + link + tail);
    assert r == (head + quoted + prompt) + link + tail;
    IncludesMiddle(head + quoted + prompt, link, tail);
    r
  }

  /** The message of the processed pass, whatever the schedule. */
  function ProcessedMessage(s: Schedule): string {
    ProcessedText
  }

  function InvoiceMessage(s: Schedule): string {
    InvoiceText(s.invoiceId)
  }

  /** The conversations after the messages of a pass, written by `text`,
      were sent for the schedules in `order`, in that order. */
  function PostAll(convs: map<string, Conversation>, ss: map<string, Schedule>, text: Schedule -> string,
                   order: seq<string>)
    : (r: map<string, Conversation>)
    requires forall id :: id in order ==> id in ss
  {
    if order == [] then convs
    else
      var id := order[|order| - 1];
      Posted(PostAll(convs, ss, text, order[..|order| - 1]), ss[id].userId, text(ss[id]))
  }

  /** How many of the schedules in `order` belong to user `u`. */
  function CountFor(ss: map<string, Schedule>, order: seq<string>, u: string): (n: nat)
    requires forall id :: id in order ==> id in ss
    ensures n <= |order|
  {
    if order == [] then 0
    else CountFor(ss, order[..|order| - 1], u) + (if ss[order[|order| - 1]].userId == u then 1 else 0)
  }

  /** The messages of user `u` in a map of conversations (none when the
      user has no conversation). */
  function Msgs(convs: map<string, Conversation>, u: string): seq<Message> {
    if u in convs then convs[u].messages else []
  }

  /** The messages a pass sends to user `u` for the schedules in `order`:
      one office message per schedule of that user. */
  function Sent(ss: map<string, Schedule>, text: Schedule -> string, order: seq<string>, u: string): (r: seq<Message>)
    requires forall id :: id in order ==> id in ss
    ensures |r| == CountFor(ss, order, u)
    ensures forall k :: 0 <= k < |r| ==> r[k].sender == Office && r[k].imageUrl == ""
  {
    if order == [] then []
    else
      var id := order[|order| - 1];
      Sent(ss, text, order[..|order| - 1], u) + (if ss[id].userId == u then [Message(Office, text(ss[id]), "")] else [])
  }

  /** A pass only appends: each user's conversation keeps its messages and
      gains exactly the messages sent for that user's schedules, in order;
      a conversation is created only for a user who is sent something, and
      the archived flag of an existing one is kept. */
  lemma {:induction false} PostAllAppends(convs: map<string, Conversation>, ss: map<string, Schedule>,
                                          text: Schedule -> string, order: seq<string>, u: string)
    requires forall id :: id in order ==> id in ss
    ensures Msgs(PostAll(convs, ss, text, order), u) == Msgs(convs, u) + Sent(ss, text, order, u)
    ensures u in PostAll(convs, ss, text, order) <==> u in convs || CountFor(ss, order, u) > 0
    ensures u in convs ==> PostAll(convs, ss, text, order)[u].archived == convs[u].archived
    decreases |order|
  {
    if order != [] {
      var front := order[..|order| - 1];
      PostAllAppends(convs, ss, text, front, u);
      var id := order[|order| - 1];
      if ss[id].userId == u {
        assert Msgs(convs, u) + Sent(ss, text, order, u)
            == (Msgs(convs, u) + Sent(ss, text, front, u)) + [Message(Office, text(ss[id]), "")];
      } else {
        assert Sent(ss, text, order, u) == Sent(ss, text, front, u) + [];
      }
    }
  }

  /** One pass (`notifyFleetPendingApproval`, `notifyFleetProcessed` or
      `notifyFleetInvoiceSent`): for each selected schedule, in the order
      the query returns them, the message `text` writes for it is sent and
      then the flag set. */
  method Notify(db: Store, p: Pass, order: seq<string>, text: Schedule -> string)
    requires IsOrderOf(order, SelectedIds(p, db.schedules))
    modifies db
    ensures db.schedules == AfterPass(old(db.schedules), p)
    ensures db.conversations == PostAll(old(db.conversations), old(db.schedules), text, order)
    ensures db.customers == old(db.customers) && db.services == old(db.services)
  {
    var found := db.schedules;
    ghost var done: set<string> := {};
    for k := 0 to |order|
      invariant db.customers == old(db.customers) && db.services == old(db.services)
      invariant forall x :: x in done <==> x in order[..k]
      invariant db.schedules == MarkAll(found, p, done)
      invariant db.conversations == PostAll(old(db.conversations), found, text, order[..k])
    {
      PostAllOneMore(old(db.conversations), found, text, order, k);
      NotifyOne(db, p, found, order[k], text, done);
      PrefixMembers(order, k);
      done := done + {order[k]};
    }
    assert order[..|order|] == order;
    assert done == SelectedIds(p, found);
  }

  /** One schedule of a pass: its message is sent and its flag set. */
  method NotifyOne(db: Store, p: Pass, found: map<string, Schedule>, id: string, text: Schedule -> string,
                   ghost done: set<string>)
    requires id in found && db.schedules == MarkAll(found, p, done)
    modifies db
    ensures db.schedules == MarkAll(found, p, done + {id})
    ensures db.conversations == Posted(old(db.conversations), found[id].userId, text(found[id]))
    ensures db.customers == old(db.customers) && db.services == old(db.services)
  {
    var s := found[id];
    SendMessage(db, s.userId, text(s));
    MarkOneMore(found, p, done, id);
    db.schedules := db.schedules[id := Mark(p, s)];
  }

  lemma PrefixMembers(order: seq<string>, k: nat)
    requires k < |order|
    ensures forall x :: x in order[..k + 1] <==> x in order[..k] || x == order[k]
  {
    assert order[..k + 1] == order[..k] + [order[k]];
  }

  /** Posting for one more schedule of the order. */
  lemma PostAllOneMore(convs: map<string, Conversation>, ss: map<string, Schedule>, text: Schedule -> string,
                       order: seq<string>, k: nat)
    requires k < |order| && forall id :: id in order ==> id in ss
    ensures forall id :: id in order[..k + 1] ==> id in ss
    ensures PostAll(convs, ss, text, order[..k + 1])
            == Posted(PostAll(convs, ss, text, order[..k]), ss[order[k]].userId, text(ss[order[k]]))
  {
    assert order[..k + 1][..k] == order[..k];
  }

  /** Flagging one more schedule. */
  lemma MarkOneMore(ss: map<string, Schedule>, p: Pass, done: set<string>, id: string)
    requires id in ss
    ensures MarkAll(ss, p, done + {id}) == MarkAll(ss, p, done)[id := Mark(p, ss[id])]
  {
  }

  /** `runFleetNotifiers`: nothing happens before the collections and the
      socket are ready; otherwise the pending, processed and invoice passes
      run in that order. */
  method Run(db: Store, ready: bool, pending: seq<string>, processed: seq<string>, invoices: seq<string>)
    requires IsOrderOf(pending, SelectedIds(PendingPass, db.schedules))
    requires IsOrderOf(processed, SelectedIds(ProcessedPass, AfterPass(db.schedules, PendingPass)))
    requires IsOrderOf(invoices, SelectedIds(InvoicePass,
                                             AfterPass(AfterPass(db.schedules, PendingPass), ProcessedPass)))
    modifies db
    ensures !ready ==> db.schedules == old(db.schedules) && db.conversations == old(db.conversations)
    ensures ready ==> db.schedules == RunSchedules(old(db.schedules))
    ensures ready ==>
              var s1 := AfterPass(old(db.schedules), PendingPass);
              var s2 := AfterPass(s1, ProcessedPass);
              db.conversations == PostAll(PostAll(PostAll(old(db.conversations), old(db.schedules), PendingText, pending),
                                                  s1, ProcessedMessage, processed),
                                          s2, InvoiceMessage, invoices)
    ensures db.customers == old(db.customers) && db.services == old(db.services)
  {
    if !ready {
      return;
    }
    Notify(db, PendingPass, pending, PendingText);
    Notify(db, ProcessedPass, processed, ProcessedMessage);
    Notify(db, InvoicePass, invoices, InvoiceMessage);
  }

  /** The schedules after a complete run. */
  function RunSchedules(ss: map<string, Schedule>): (r: map<string, Schedule>)
    ensures r.Keys == ss.Keys
  {
    AfterPass(AfterPass(AfterPass(ss, PendingPass), ProcessedPass), InvoicePass)
  }

  /** A pass leaves the other passes' selections as they were. */
  lemma PassKeepsOtherSelections(ss: map<string, Schedule>, p: Pass, q: Pass)
    requires p != q
    ensures SelectedIds(q, AfterPass(ss, p)) == SelectedIds(q, ss)
  {
  }

  /** After a complete run no pass selects anything, so a second run with
      no change in between sends no message and changes nothing. */
  lemma RunLeavesNothingSelected(ss: map<string, Schedule>)
    ensures forall p :: SelectedIds(p, RunSchedules(ss)) == {}
    ensures forall p :: AfterPass(RunSchedules(ss), p) == RunSchedules(ss)
  {
    var s1 := AfterPass(ss, PendingPass);
    var s2 := AfterPass(s1, ProcessedPass);
    var s3 := AfterPass(s2, InvoicePass);
    PassKeepsOtherSelections(s1, ProcessedPass, PendingPass);
    PassKeepsOtherSelections(s2, InvoicePass, PendingPass);
    PassKeepsOtherSelections(s2, InvoicePass, ProcessedPass);
    forall p ensures AfterPass(s3, p) == s3 {
      assert SelectedIds(p, s3) == {};
      assert forall id :: id in s3 ==> AfterPass(s3, p)[id] == s3[id];
    }
  }

  /** A second run after a complete one: its orders can only be empty, and
      it leaves the conversations as they were. */
  lemma SecondRunSendsNothing(ss: map<string, Schedule>, convs: map<string, Conversation>,
                              text1: Schedule -> string, text2: Schedule -> string, text3: Schedule -> string,
                              pending: seq<string>, processed: seq<string>, invoices: seq<string>)
    requires IsOrderOf(pending, SelectedIds(PendingPass, RunSchedules(ss)))
    requires IsOrderOf(processed, SelectedIds(ProcessedPass, AfterPass(RunSchedules(ss), PendingPass)))
    requires IsOrderOf(invoices, SelectedIds(InvoicePass, AfterPass(AfterPass(RunSchedules(ss), PendingPass), ProcessedPass)))
    ensures pending == [] && processed == [] && invoices == []
    ensures PostAll(PostAll(PostAll(convs, RunSchedules(ss), text1, pending),
                            RunSchedules(ss), text2, processed),
                    RunSchedules(ss), text3, invoices) == convs
  {
    RunLeavesNothingSelected(ss);
    EmptyOrder(pending);
    EmptyOrder(processed);
    EmptyOrder(invoices);
  }

  /** An order of no ids is empty. */
  lemma EmptyOrder(order: seq<string>)
    requires IsOrderOf(order, {})
    ensures order == []
  {
    HeadIsMember(order);
  }

  lemma HeadIsMember(order: seq<string>)
    ensures |order| > 0 ==> order[0] in order
  {
  }

  /** Schedules of other account types are never changed, and no message
      goes to a user none of whose schedules is a fleet one. */
  lemma NonFleetUntouched(ss: map<string, Schedule>, convs: map<string, Conversation>, p: Pass,
                          text: Schedule -> string, order: seq<string>, id: string, u: string)
    requires IsOrderOf(order, SelectedIds(p, ss))
    requires forall x :: x in ss && ss[x].userId == u ==> !IsFleet(ss[x])
    ensures id in ss && !IsFleet(ss[id]) ==> AfterPass(ss, p)[id] == ss[id]
    ensures u in convs ==> u in PostAll(convs, ss, text, order) && PostAll(convs, ss, text, order)[u] == convs[u]
    ensures u !in convs ==> u !in PostAll(convs, ss, text, order)
  {
    NoneCounted(ss, order, p, u);
    PostAllAppends(convs, ss, text, order, u);
  }

  lemma {:induction false} NoneCounted(ss: map<string, Schedule>, order: seq<string>, p: Pass, u: string)
    requires forall id :: id in order ==> id in ss && Selected(p, ss[id])
    requires forall x :: x in ss && ss[x].userId == u ==> !IsFleet(ss[x])
    ensures CountFor(ss, order, u) == 0
    decreases |order|
  {
    if order != [] {
      NoneCounted(ss, order[..|order| - 1], p, u);
    }
  }
}
