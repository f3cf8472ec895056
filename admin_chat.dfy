/** The office's chat panel (chatbot.js): the list of conversations with
    their unread counters, the selection, archiving, and the merging of the
    lists and updates the socket delivers. */
module AdminChat {
  import opened Common
  import opened Records

  /** A conversation as the panel holds it: the user's name and e-mail as
      populated (either may be missing), the messages, the archived flag and
      the panel's own unread counter. */
  datatype AdminConv = AdminConv(id: string, name: Option<string>, email: Option<string>,
                                 messages: seq<Message>, archived: bool, unread: int)

  datatype View = ActiveView | ArchivedView

  // ---- getPendingCount --------------------------------------------------------

  /** The position just after the last office message, 0 when there is none. */
  function LastOfficeEnd(ms: seq<Message>): (r: nat)
    ensures r <= |ms|
    ensures r > 0 ==> ms[r - 1].sender == Office
    ensures forall k :: r <= k < |ms| ==> ms[k].sender != Office
  {
    if ms == [] then 0
    else if ms[|ms| - 1].sender == Office then |ms|
    else LastOfficeEnd(ms[..|ms| - 1])
  }

  /** The messages still waiting for the office: the customer messages
      after its last reply (other senders do not count). */
  function Pending(ms: seq<Message>): (n: nat)
    ensures n <= |ms| - LastOfficeEnd(ms)
  {
    CustomerCount(ms[LastOfficeEnd(ms)..])
  }

  /** `getPendingCount`: walks back from the newest message, counting the
      customer's messages, and stops at the first office message. */
  method GetPendingCount(ms: seq<Message>) returns (count: nat)
    ensures count == Pending(ms)
  {
    count := 0;
    var i := |ms|;
    while i > 0
      invariant 0 <= i <= |ms|
      invariant forall k :: i <= k < |ms| ==> ms[k].sender != Office
      invariant count == CustomerCount(ms[i..])
      decreases i
    {
      var s := ms[i - 1].sender;
      if s == Office {
        OfficeEnd(ms, i);
        return;
      }
      ConsCount(ms, i - 1);
      if s == Customer {
        count := count + 1;
      }
      i := i - 1;
    }
    OfficeEnd(ms, 0);
  }

  lemma ConsCount(ms: seq<Message>, i: nat)
    requires i < |ms|
    ensures CustomerCount(ms[i..]) == CustomerCount(ms[i + 1..]) + (if ms[i].sender == Customer then 1 else 0)
  {
    assert ms[i..] == [ms[i]] + ms[i + 1..];
    CustomerCountAppend([ms[i]], ms[i + 1..]);
    var one := [ms[i]];
    assert one[..|one| - 1] == [];
  }

  /** When no office message follows position `i` and position `i - 1` (if
      any) is one, `i` is where the last office message ends. */
  lemma {:induction false} OfficeEnd(ms: seq<Message>, i: nat)
    requires i <= |ms|
    requires forall k :: i <= k < |ms| ==> ms[k].sender != Office
    requires i > 0 ==> ms[i - 1].sender == Office
    ensures LastOfficeEnd(ms) == i
    decreases |ms|
  {
    if |ms| > i {
      var front := ms[..|ms| - 1];
      assert forall k :: i <= k < |front| ==> front[k] == ms[k];
      OfficeEnd(front, i);
    }
  }

  /** A new customer message adds one to the pending count. */
  lemma PendingAfterCustomer(ms: seq<Message>, m: Message)
    requires m.sender == Customer
    ensures Pending(ms + [m]) == Pending(ms) + 1
  {
    var all := ms + [m];
    assert all[..|all| - 1] == ms;
    var e := LastOfficeEnd(ms);
    assert all[e..] == ms[e..] + [m];
    CustomerCountAppend(ms[e..], [m]);
    var one := [m];
    assert one[..|one| - 1] == [];
  }

  /** An office reply clears the pending count. */
  lemma PendingAfterOffice(ms: seq<Message>, m: Message)
    requires m.sender == Office
    ensures Pending(ms + [m]) == 0
  {
    var all := ms + [m];
    assert all[|all|..] == [];
  }

  // ---- rendering ------------------------------------------------------------------

  /** What an item of the list shows: the name ("Usuario" when unknown), the
      e-mail if any, and, with pending messages, the envelope icon and a
      badge with their number. */
  datatype ItemView = ItemView(name: string, email: Option<string>, icon: bool, badge: Option<int>)

  /** `renderItemText`. */
  function ItemText(name: string, email: string, pending: int): (v: ItemView)
    ensures v.name == name
    ensures v.email.Some? <==> email != ""
    ensures v.icon <==> pending > 0
    ensures v.badge.Some? <==> pending > 0
    ensures v.badge.Some? ==> v.badge.value == pending
  {
    ItemView(name, if email != "" then Some(email) else None, pending > 0,
             if pending > 0 then Some(pending) else None)
  }

  function DisplayName(c: AdminConv): string {
    OrElse(c.name, "Usuario")
  }

  /** True when the conversation is listed in the view for the (already
      lower-cased) search term: the active view lists the conversations that
      are not archived; the archived view lists the archived ones whose
      lower-cased name contains the term, so every one of them while the
      term is empty. */
  function InView(c: AdminConv, view: View, term: string): (b: bool)
    ensures view == ActiveView ==> (b <==> !c.archived)
    ensures view == ArchivedView && term == "" ==> (b <==> c.archived)
  {
    IncludesEmpty(ToLower(DisplayName(c)));
    match view
    case ActiveView => !c.archived
    case ArchivedView => c.archived && Includes(ToLower(DisplayName(c)), term)
  }

  /** The listed conversations, in panel order. */
  function Visible(convs: seq<AdminConv>, view: View, term: string): (r: seq<AdminConv>)
    ensures forall c :: c in r <==> c in convs && InView(c, view, term)
    ensures view == ActiveView ==> forall c :: c in r ==> !c.archived
    ensures view == ArchivedView ==> forall c :: c in r ==> c.archived
    ensures |r| <= |convs|
  {
    if convs == [] then []
    else
      var rest := Visible(convs[1..], view, term);
      assert forall x :: x in convs <==> x == convs[0] || x in convs[1..];
      if InView(convs[0], view, term) then [convs[0]] + rest else rest
  }

  /** An empty search term lists every archived conversation. */
  lemma EmptyTermListsAllArchived(convs: seq<AdminConv>)
    ensures forall c :: c in Visible(convs, ArchivedView, "") <==> c in convs && c.archived
  {
    forall c | c in convs && c.archived
      ensures c in Visible(convs, ArchivedView, "")
    {
      IncludesIff(ToLower(DisplayName(c)), "");
      assert OccursAt(ToLower(DisplayName(c)), "", 0);
    }
  }

  /** One item of the list: its text, whether it is the selected one and
      whether it is marked unread (a counter above zero on a conversation
      that is not open). */
  datatype Item = Item(id: string, text: ItemView, active: bool, unread: bool)

  function ItemOf(c: AdminConv, current: Option<string>): (it: Item)
    ensures it.id == c.id && it.active == (current == Some(c.id))
    ensures it.unread <==> c.unread > 0 && current != Some(c.id)
    ensures it.text.badge.Some? <==> c.unread > 0
  {
    Item(c.id, ItemText(DisplayName(c), OrElse(c.email, ""), c.unread),
         current == Some(c.id), c.unread > 0 && current != Some(c.id))
  }

  /** The archive button is disabled when nothing is selected or the
      archived view is shown; an enabled button always has an open
      conversation of the active view to archive. Conversation ids are
      non-empty database ids, so `!currentId` is exactly `None` here. */
  function ArchiveDisabled(current: Option<string>, view: View): (b: bool)
    ensures !b ==> current.Some? && view == ActiveView
  {
    current.None? || view == ArchivedView
  }

  /** The badges of a freshly loaded list: every listed conversation shows
      a badge exactly when customer messages wait after the office's last
      reply, and the badge counts them. */
  lemma LoadedBadges(list: seq<AdminConv>, view: View, term: string, current: Option<string>, k: nat)
    requires k < |Visible(LoadedList(list), view, term)|
    ensures var c := Visible(LoadedList(list), view, term)[k];
            var it := ItemOf(c, current);
            (it.text.badge.Some? <==> Pending(c.messages) > 0)
            && (it.text.badge.Some? ==> it.text.badge.value == Pending(c.messages))
  {
    var loaded := LoadedList(list);
    var c := Visible(loaded, view, term)[k];
    assert c in Visible(loaded, view, term);
    var j :| 0 <= j < |loaded| && loaded[j] == c;
    assert c.unread == Pending(c.messages);
  }

  /** Archiving the open conversation of a list whose ids are distinct
      takes it out of the active view. */
  lemma ArchivingLeavesActiveView(convs: seq<AdminConv>, id: string, term: string)
    requires forall i, j :: 0 <= i < j < |convs| ==> convs[i].id != convs[j].id
    ensures forall c :: c in Visible(ArchivedList(convs, id), ActiveView, term) ==> c.id != id
  {
    var r := ArchivedList(convs, id);
    forall c | c in Visible(r, ActiveView, term) ensures c.id != id {
      var k :| 0 <= k < |r| && r[k] == c;
      if FindConv(convs, id).Some? && k != FindConv(convs, id).value {
        assert convs[k].id != convs[FindConv(convs, id).value].id;
      }
    }
  }

  // ---- state updates, as functions of the list ----------------------------------------

  /** `conversations.findIndex(c => c._id === id)`. */
  function FindConv(convs: seq<AdminConv>, id: string): (r: Option<nat>)
    ensures r.Some? ==> r.value < |convs| && convs[r.value].id == id
    ensures r.Some? ==> forall k :: 0 <= k < r.value ==> convs[k].id != id
    ensures r.None? <==> forall k :: 0 <= k < |convs| ==> convs[k].id != id
  {
    if convs == [] then None
    else if convs[0].id == id then Some(0)
    else
      match FindConv(convs[1..], id)
      case None => None
      case Some(k) => Some(k + 1)
  }

  /** The list after selecting `id`: the first conversation with that id
      has its counter reset, nothing else changes. */
  function SelectedList(convs: seq<AdminConv>, id: string): (r: seq<AdminConv>)
    ensures |r| == |convs|
    ensures FindConv(convs, id).None? ==> r == convs
    ensures FindConv(convs, id).Some? ==>
              var i := FindConv(convs, id).value;
              r[i] == convs[i].(unread := 0) && forall k :: 0 <= k < |convs| && k != i ==> r[k] == convs[k]
  {
    match FindConv(convs, id)
    case None => convs
    case Some(i) => convs[i := convs[i].(unread := 0)]
  }

  /** The list after archiving `id`: the first conversation with that id
      is archived, nothing else changes. */
  function ArchivedList(convs: seq<AdminConv>, id: string): (r: seq<AdminConv>)
    ensures |r| == |convs|
    ensures FindConv(convs, id).None? ==> r == convs
    ensures FindConv(convs, id).Some? ==>
              var i := FindConv(convs, id).value;
              r[i] == convs[i].(archived := true) && forall k :: 0 <= k < |convs| && k != i ==> r[k] == convs[k]
  {
    match FindConv(convs, id)
    case None => convs
    case Some(i) => convs[i := convs[i].(archived := true)]
  }

  /** The list a `conversation_list` event installs: the same
      conversations, each counter set to its pending count. */
  function LoadedList(list: seq<AdminConv>): (r: seq<AdminConv>)
    ensures |r| == |list|
    ensures forall k :: 0 <= k < |list| ==> r[k] == list[k].(unread := Pending(list[k].messages))
  {
    seq(|list|, k requires 0 <= k < |list| => list[k].(unread := Pending(list[k].messages)))
  }

  /** `conversations.find(c => !c.archived)?._id || null`. */
  function FirstActive(convs: seq<AdminConv>): (r: Option<string>)
    ensures r.Some? ==> r.value != "" && exists k :: 0 <= k < |convs| && !convs[k].archived && convs[k].id == r.value
    ensures (forall k :: 0 <= k < |convs| ==> convs[k].archived) ==> r.None?
  {
    if convs == [] then None
    else if !convs[0].archived then (if convs[0].id != "" then Some(convs[0].id) else None)
    else
      var r := FirstActive(convs[1..]);
      assert r.Some? ==> exists k :: 1 <= k < |convs| && !convs[k].archived && convs[k].id == r.value by {
        if r.Some? {
          var k :| 0 <= k < |convs| - 1 && !convs[1..][k].archived && convs[1..][k].id == r.value;
          assert convs[k + 1] == convs[1..][k];
        }
      }
      r
  }

  /** True when the last message of the conversation is the customer's. */
  predicate LastFromCustomer(ms: seq<Message>) {
    |ms| > 0 && ms[|ms| - 1].sender == Customer
  }

  /** The list after a `conversation_update`: a known conversation is
      replaced in place keeping its counter, plus one for a customer message
      in a conversation that is not open; an unknown one is put first with a
      counter of 1 for a customer message and 0 otherwise. The `unread` of
      `updated` is ignored. */
  function MergedList(convs: seq<AdminConv>, updated: AdminConv, current: Option<string>): (r: seq<AdminConv>)
    ensures FindConv(convs, updated.id).Some? ==>
              var i := FindConv(convs, updated.id).value;
              |r| == |convs|
              && r[i] == updated.(unread := convs[i].unread
                            + (if LastFromCustomer(updated.messages) && current != Some(updated.id) then 1 else 0))
              && forall k :: 0 <= k < |convs| && k != i ==> r[k] == convs[k]
    ensures FindConv(convs, updated.id).None? ==>
              r == [updated.(unread := if LastFromCustomer(updated.messages) then 1 else 0)] + convs
  {
    match FindConv(convs, updated.id)
    case Some(i) =>
      var bump := if LastFromCustomer(updated.messages) && current != Some(updated.id) then 1 else 0;
      convs[i := updated.(unread := convs[i].unread + bump)]
    case None =>
      [updated.(unread := if LastFromCustomer(updated.messages) then 1 else 0)] + convs
  }

  /** An update that brings one more customer message keeps a counter that
      was loaded from the list equal to the pending count, as long as the
      conversation is not the open one. */
  lemma UpdateKeepsPendingCount(convs: seq<AdminConv>, updated: AdminConv, current: Option<string>, m: Message)
    requires FindConv(convs, updated.id).Some?
    requires var c := convs[FindConv(convs, updated.id).value];
             c.unread == Pending(c.messages) && updated.messages == c.messages + [m]
    requires m.sender == Customer && current != Some(updated.id)
    ensures var i := FindConv(convs, updated.id).value;
            MergedList(convs, updated, current)[i].unread == Pending(updated.messages)
  {
    var c := convs[FindConv(convs, updated.id).value];
    PendingAfterCustomer(c.messages, m);
  }

  // ---- the panel ---------------------------------------------------------------------

  class AdminPanel {
    var conversations: seq<AdminConv>
    var current: Option<string>
    var view: View
    var searchTerm: string

    /** No counter is ever negative. */
    predicate Valid()
      reads this
    {
      forall k :: 0 <= k < |conversations| ==> conversations[k].unread >= 0
    }

    constructor ()
      ensures Valid() && conversations == [] && current.None? && view == ActiveView && searchTerm == ""
    {
      conversations := [];
      current := None;
      view := ActiveView;
      searchTerm := "";
    }

    /** What the list shows. */
    function Items(): (items: seq<Item>)
      reads this
      ensures |items| == |Visible(conversations, view, searchTerm)|
      ensures forall k :: 0 <= k < |items| ==> items[k] == ItemOf(Visible(conversations, view, searchTerm)[k], current)
    {
      var vs := Visible(conversations, view, searchTerm);
      var cur := current;
      seq(|vs|, k requires 0 <= k < |vs| => ItemOf(vs[k], cur))
    }

    /** The view selector: only the view changes; the list is drawn anew
        from `Items`. */
    method SetView(v: View)
      requires Valid()
      modifies this
      ensures Valid() && view == v && conversations == old(conversations)
      ensures current == old(current) && searchTerm == old(searchTerm)
    {
      view := v;
    }

    /** The search box: the term is the input lower-cased. */
    method SetSearch(input: string)
      requires Valid()
      modifies this
      ensures Valid() && searchTerm == ToLower(input) && |searchTerm| == |input|
      ensures conversations == old(conversations) && current == old(current) && view == old(view)
    {
      searchTerm := ToLower(input);
    }

    /** `selectConversation`: the conversation becomes the open one and
        its counter is reset. */
    method Select(id: string)
      requires Valid()
      modifies this
      ensures Valid() && current == Some(id) && conversations == SelectedList(old(conversations), id)
      ensures view == old(view) && searchTerm == old(searchTerm)
      ensures FindConv(conversations, id).Some? ==> conversations[FindConv(conversations, id).value].unread == 0
    {
      current := Some(id);
      conversations := SelectedList(conversations, id);
      assert forall k :: 0 <= k < |conversations| && conversations[k].id == id ==> FindConv(conversations, id).Some?;
    }

    /** `archiveConversation`: without a selection nothing happens;
        otherwise the open conversation is archived and the selection is
        cleared. Ids are non-empty, so `!currentId` is exactly `None`. */
    method Archive()
      requires Valid()
      modifies this
      ensures Valid() && view == old(view) && searchTerm == old(searchTerm)
      ensures old(current).None? ==> conversations == old(conversations) && current.None?
      ensures old(current).Some? ==>
                conversations == ArchivedList(old(conversations), old(current).value) && current.None?
    {
      if current.None? {
        return;
      }
      conversations := ArchivedList(conversations, current.value);
      current := None;
    }

    /** A `conversation_list` event: the list is replaced, each counter
        set to the conversation's pending count; in the active view with
        nothing selected, the first conversation that is not archived is
        opened. */
    method OnList(list: seq<AdminConv>)
      modifies this
      ensures Valid() && conversations == LoadedList(list)
      ensures view == old(view) && searchTerm == old(searchTerm)
      ensures (view == ActiveView && |list| > 0 && old(current).None?) ==> current == FirstActive(conversations)
      ensures !(view == ActiveView && |list| > 0 && old(current).None?) ==> current == old(current)
    {
      conversations := LoadedList(list);
      if view == ActiveView && |conversations| > 0 && current.None? {
        current := FirstActive(conversations);
      }
    }

    /** A `conversation_update` event. */
    method OnUpdate(updated: AdminConv)
      requires Valid()
      modifies this
      ensures Valid() && conversations == MergedList(old(conversations), updated, current)
      ensures current == old(current) && view == old(view) && searchTerm == old(searchTerm)
    {
      conversations := MergedList(conversations, updated, current);
    }
  }

  /** What the list shows, read through the panel's invariant: the open
      conversation's item is never marked unread, an item is marked unread
      exactly when it has a badge and is not open, and an item without a
      badge stands for a conversation with no unread messages. */
  lemma ItemsAgree(panel: AdminPanel, k: nat)
    requires panel.Valid() && k < |panel.Items()|
    ensures var it := panel.Items()[k];
            (it.active ==> !it.unread)
            && (it.unread <==> it.text.badge.Some? && !it.active)
            && (it.text.badge.None? ==> Visible(panel.conversations, panel.view, panel.searchTerm)[k].unread == 0)
  {
    var vs := Visible(panel.conversations, panel.view, panel.searchTerm);
    assert vs[k] in vs;
  }

  /** The open conversation never gains unread messages from an update. */
  lemma OpenConversationStaysRead(convs: seq<AdminConv>, updated: AdminConv)
    requires FindConv(convs, updated.id).Some?
    ensures var i := FindConv(convs, updated.id).value;
            MergedList(convs, updated, Some(updated.id))[i].unread == convs[i].unread
  {
  }
}
