/** The older office chat panel (office_chat.js). Instead of counters it
    remembers, per conversation, how many messages the last rendering saw
    (`_lastCount`) and marks a conversation when it has grown since. */
module OfficeChat {
  import opened Common
  import opened Records
  import AdminChat

  /** A conversation of the panel; `lastCount` is `_lastCount`, None while
      it was never set. */
  datatype OfficeConv = OfficeConv(id: string, fullName: string, email: string,
                                   messages: seq<Message>, archived: bool, lastCount: Option<int>)

  /** One rendered item: the envelope icon and the `has-new-message` class
      are shown exactly when `newMessage` holds. */
  datatype OfficeItem = OfficeItem(id: string, fullName: string, email: string, active: bool, newMessage: bool)

  /** The active view lists the conversations that are not archived; the
      archived view the archived ones whose lower-cased name contains the
      search term. */
  predicate InView(c: OfficeConv, view: AdminChat.View, term: string) {
    match view
    case ActiveView => !c.archived
    case ArchivedView => c.archived && Includes(ToLower(c.fullName), term)
  }

  /** The new-message mark: the active view, a known last count, more
      messages than that count, and not the open conversation. */
  function Flagged(c: OfficeConv, view: AdminChat.View, current: Option<string>): (b: bool)
    ensures c.lastCount == Some(|c.messages|) ==> !b
    ensures b ==> view == AdminChat.ActiveView && current != Some(c.id)
  {
    view == AdminChat.ActiveView && c.lastCount.Some? && |c.messages| > c.lastCount.value
    && current != Some(c.id)
  }

  function ItemOf(c: OfficeConv, view: AdminChat.View, current: Option<string>): (it: OfficeItem)
    ensures it.id == c.id && it.active == (current == Some(c.id))
    ensures it.newMessage == Flagged(c, view, current)
    ensures it.newMessage ==> !it.active && view == AdminChat.ActiveView
  {
    OfficeItem(c.id, c.fullName, c.email, current == Some(c.id), Flagged(c, view, current))
  }

  /** The items a rendering shows, in list order. */
  function Rendered(cs: seq<OfficeConv>, view: AdminChat.View, term: string, current: Option<string>): (r: seq<OfficeItem>)
    ensures |r| <= |cs|
    ensures forall it :: it in r ==> exists c :: c in cs && InView(c, view, term) && it == ItemOf(c, view, current)
    ensures forall c :: c in cs && InView(c, view, term) ==> ItemOf(c, view, current) in r
  {
    if cs == [] then []
    else
      var front := cs[..|cs| - 1];
      var last := cs[|cs| - 1];
      assert forall c :: c in cs <==> c in front || c == last;
      Rendered(front, view, term, current) + (if InView(last, view, term) then [ItemOf(last, view, current)] else [])
  }

  /** A conversation after a rendering: a listed one records its message
      count. */
  function Marked(c: OfficeConv, view: AdminChat.View, term: string): (d: OfficeConv)
    ensures InView(d, view, term) == InView(c, view, term)
    ensures d.(lastCount := c.lastCount) == c
    ensures InView(c, view, term) ==> d.lastCount == Some(|c.messages|)
  {
    if InView(c, view, term) then c.(lastCount := Some(|c.messages|)) else c
  }

  function MarkedAll(cs: seq<OfficeConv>, view: AdminChat.View, term: string): (ds: seq<OfficeConv>)
    ensures |ds| == |cs| && forall k :: 0 <= k < |cs| ==> ds[k] == Marked(cs[k], view, term)
  {
    seq(|cs|, k requires 0 <= k < |cs| => Marked(cs[k], view, term))
  }

  /** Recording the counts a second time changes nothing. */
  lemma MarkedAllIdempotent(cs: seq<OfficeConv>, view: AdminChat.View, term: string)
    ensures MarkedAll(MarkedAll(cs, view, term), view, term) == MarkedAll(cs, view, term)
  {
    var ds := MarkedAll(cs, view, term);
    assert forall k :: 0 <= k < |ds| ==> Marked(ds[k], view, term) == ds[k];
  }

  /** Rendering keeps list order: the items of a list split in two are
      those of the first part followed by those of the second. */
  lemma {:induction false} RenderedAppend(a: seq<OfficeConv>, b: seq<OfficeConv>, view: AdminChat.View,
                                          term: string, current: Option<string>)
    ensures Rendered(a + b, view, term, current) == Rendered(a, view, term, current) + Rendered(b, view, term, current)
    decreases |b|
  {
    if b == [] {
      assert a + b == a;
    } else {
      var front := b[..|b| - 1];
      var last := b[|b| - 1];
      assert a + b == (a + front) + [last];
      assert b == front + [last];
      RenderedSnoc(a + front, last, view, term, current);
      RenderedSnoc(front, last, view, term, current);
      RenderedAppend(a, front, view, term, current);
    }
  }

  lemma RenderedSnoc(cs: seq<OfficeConv>, c: OfficeConv, view: AdminChat.View, term: string, current: Option<string>)
    ensures Rendered(cs + [c], view, term, current)
            == Rendered(cs, view, term, current) + (if InView(c, view, term) then [ItemOf(c, view, current)] else [])
  {
    var all := cs + [c];
    assert all[..|all| - 1] == cs && all[|all| - 1] == c;
  }

  /** Once every listed conversation has recorded its message count, a
      rendering marks nothing. */
  lemma NothingFlaggedWhenCounted(cs: seq<OfficeConv>, view: AdminChat.View, term: string, current: Option<string>)
    requires forall c :: c in cs && InView(c, view, term) ==> c.lastCount == Some(|c.messages|)
    ensures forall it :: it in Rendered(cs, view, term, current) ==> !it.newMessage
  {
  }

  /** The mark does not survive a second rendering with no change in
      between. */
  lemma SecondRenderingFlagsNothing(cs: seq<OfficeConv>, view: AdminChat.View, term: string, current: Option<string>)
    ensures forall it :: it in Rendered(MarkedAll(cs, view, term), view, term, current) ==> !it.newMessage
  {
    var ds := MarkedAll(cs, view, term);
    forall d | d in ds && InView(d, view, term)
      ensures d.lastCount == Some(|d.messages|)
    {
      var k :| 0 <= k < |ds| && ds[k] == d;
      assert InView(cs[k], view, term);
    }
    NothingFlaggedWhenCounted(ds, view, term, current);
  }

  /** Rendering a list that starts with `c`. */
  lemma {:induction false} RenderedCons(c: OfficeConv, cs: seq<OfficeConv>, view: AdminChat.View, term: string,
                                        current: Option<string>)
    ensures Rendered([c] + cs, view, term, current)
            == (if InView(c, view, term) then [ItemOf(c, view, current)] else []) + Rendered(cs, view, term, current)
    decreases |cs|
  {
    var all := [c] + cs;
    if cs != [] {
      assert all[..|all| - 1] == [c] + cs[..|cs| - 1];
      assert all[|all| - 1] == cs[|cs| - 1];
      RenderedCons(c, cs[..|cs| - 1], view, term, current);
    } else {
      assert all[..|all| - 1] == [];
    }
  }

  // ---- state updates ---------------------------------------------------------------

  function FindConv(cs: seq<OfficeConv>, id: string): (r: Option<nat>)
    ensures r.Some? ==> r.value < |cs| && cs[r.value].id == id
    ensures r.Some? ==> forall k :: 0 <= k < r.value ==> cs[k].id != id
    ensures r.None? <==> forall k :: 0 <= k < |cs| ==> cs[k].id != id
  {
    if cs == [] then None
    else if cs[0].id == id then Some(0)
    else
      match FindConv(cs[1..], id)
      case None => None
      case Some(k) => Some(k + 1)
  }

  /** The list a `conversation_list` event installs: every last count is
      the conversation's message count. */
  function LoadedList(list: seq<OfficeConv>): (r: seq<OfficeConv>)
    ensures |r| == |list|
    ensures forall k :: 0 <= k < |list| ==> r[k] == list[k].(lastCount := Some(|list[k].messages|))
  {
    seq(|list|, k requires 0 <= k < |list| => list[k].(lastCount := Some(|list[k].messages|)))
  }

  /** Right after a list load nothing is marked. */
  lemma LoadedListFlagsNothing(list: seq<OfficeConv>, view: AdminChat.View, term: string, current: Option<string>)
    ensures forall it :: it in Rendered(LoadedList(list), view, term, current) ==> !it.newMessage
  {
    var ds := LoadedList(list);
    forall d | d in ds
      ensures d.lastCount == Some(|d.messages|)
    {
      var k :| 0 <= k < |ds| && ds[k] == d;
    }
    NothingFlaggedWhenCounted(ds, view, term, current);
  }

  /** `conversations.find(c => !c.archived)?._id || null`. */
  function FirstActive(cs: seq<OfficeConv>): (r: Option<string>)
    ensures r.Some? ==> r.value != "" && exists c :: c in cs && !c.archived && c.id == r.value
    ensures (forall c :: c in cs ==> c.archived) ==> r.None?
  {
    if cs == [] then None
    else if !cs[0].archived then (if cs[0].id != "" then Some(cs[0].id) else None)
    else
      assert forall c :: c in cs[1..] ==> c in cs;
      FirstActive(cs[1..])
  }

  /** The list after a `conversation_update`: a known conversation is
      replaced keeping its last count; an unknown one is put first with a
      last count one below its message count. */
  function MergedList(cs: seq<OfficeConv>, updated: OfficeConv): (r: seq<OfficeConv>)
    ensures FindConv(cs, updated.id).Some? ==>
              var i := FindConv(cs, updated.id).value;
              |r| == |cs| && r[i] == updated.(lastCount := cs[i].lastCount)
              && forall k :: 0 <= k < |cs| && k != i ==> r[k] == cs[k]
    ensures FindConv(cs, updated.id).None? ==>
              r == [updated.(lastCount := Some(|updated.messages| - 1))] + cs
  {
    match FindConv(cs, updated.id)
    case Some(i) => cs[i := updated.(lastCount := cs[i].lastCount)]
    case None => [updated.(lastCount := Some(|updated.messages| - 1))] + cs
  }

  /** After a rendering, an update to a listed conversation marks it in the
      active view exactly when it brings more messages than that rendering
      saw and it is not the open one. */
  lemma UpdateFlagsGrowth(cs: seq<OfficeConv>, view: AdminChat.View, term: string,
                          updated: OfficeConv, current: Option<string>)
    requires FindConv(MarkedAll(cs, view, term), updated.id).Some?
    requires InView(cs[FindConv(MarkedAll(cs, view, term), updated.id).value], view, term)
    ensures var i := FindConv(MarkedAll(cs, view, term), updated.id).value;
            (Flagged(MergedList(MarkedAll(cs, view, term), updated)[i], AdminChat.ActiveView, current)
             <==> |updated.messages| > |cs[i].messages| && current != Some(updated.id))
  {
  }

  /** A conversation the panel did not know is marked by the next rendering
      when it is listed in the active view and not open. */
  lemma NewConversationFlagged(cs: seq<OfficeConv>, updated: OfficeConv, current: Option<string>, term: string)
    requires FindConv(cs, updated.id).None?
    requires !updated.archived && current != Some(updated.id)
    ensures var r := Rendered(MergedList(cs, updated), AdminChat.ActiveView, term, current);
            |r| > 0 && r[0].id == updated.id && r[0].newMessage
  {
    var u := updated.(lastCount := Some(|updated.messages| - 1));
    RenderedCons(u, cs, AdminChat.ActiveView, term, current);
  }

  // ---- the panel -----------------------------------------------------------------------

  class OfficePanel {
    var conversations: seq<OfficeConv>
    var current: Option<string>
    var view: AdminChat.View
    var searchTerm: string

    constructor ()
      ensures conversations == [] && current.None? && view == AdminChat.ActiveView && searchTerm == ""
    {
      conversations := [];
      current := None;
      view := AdminChat.ActiveView;
      searchTerm := "";
    }

    /** `renderConversations`: lists the conversations, marking those
        that grew since the previous rendering, and records the message
        count of every listed one. */
    method Render() returns (items: seq<OfficeItem>)
      modifies this
      ensures items == Rendered(old(conversations), view, searchTerm, current)
      ensures conversations == MarkedAll(old(conversations), view, searchTerm)
      ensures current == old(current) && view == old(view) && searchTerm == old(searchTerm)
    {
      ghost var cs := conversations;
      items := [];
      var k := 0;
      while k < |conversations|
        invariant |conversations| == |cs| && 0 <= k <= |cs|
        invariant current == old(current) && view == old(view) && searchTerm == old(searchTerm)
        invariant forall j :: 0 <= j < k ==> conversations[j] == Marked(cs[j], view, searchTerm)
        invariant forall j :: k <= j < |cs| ==> conversations[j] == cs[j]
        invariant items == Rendered(cs[..k], view, searchTerm, current)
        decreases |cs| - k
      {
        var c := conversations[k];
        assert cs[..k + 1][..k] == cs[..k];
        if InView(c, view, searchTerm) {
          items := items + [ItemOf(c, view, current)];
          conversations := conversations[k := c.(lastCount := Some(|c.messages|))];
        }
        k := k + 1;
      }
      assert cs[..k] == cs;
    }

    /** `selectConversation`, followed by its rendering. */
    method Select(id: string) returns (items: seq<OfficeItem>)
      modifies this
      ensures current == Some(id) && view == old(view) && searchTerm == old(searchTerm)
      ensures items == Rendered(old(conversations), view, searchTerm, current)
      ensures conversations == MarkedAll(old(conversations), view, searchTerm)
    {
      current := Some(id);
      items := Render();
    }

    /** A change of the view selector, followed by its rendering. */
    method SetView(v: AdminChat.View) returns (items: seq<OfficeItem>)
      modifies this
      ensures view == v && current == old(current) && searchTerm == old(searchTerm)
      ensures items == Rendered(old(conversations), v, searchTerm, current)
      ensures conversations == MarkedAll(old(conversations), v, searchTerm)
    {
      view := v;
      items := Render();
    }

    /** Typing in the search box: the term is kept lower-cased. */
    method SetSearch(input: string) returns (items: seq<OfficeItem>)
      modifies this
      ensures searchTerm == ToLower(input) && view == old(view) && current == old(current)
      ensures items == Rendered(old(conversations), view, searchTerm, current)
      ensures conversations == MarkedAll(old(conversations), view, searchTerm)
    {
      searchTerm := ToLower(input);
      items := Render();
    }

    /** `archiveConversation`: without a selection nothing happens;
        otherwise the open conversation is archived, the selection cleared
        and the list rendered. Ids are non-empty, so `!currentId` is
        exactly `None`. */
    method Archive() returns (items: seq<OfficeItem>)
      modifies this
      ensures view == old(view) && searchTerm == old(searchTerm)
      ensures old(current).None? ==> items == [] && conversations == old(conversations) && current.None?
      ensures old(current).Some? ==>
                var cs := old(conversations);
                var archived := match FindConv(cs, old(current).value)
                                case None => cs
                                case Some(i) => cs[i := cs[i].(archived := true)];
                current.None? && items == Rendered(archived, view, searchTerm, None)
                && conversations == MarkedAll(archived, view, searchTerm)
    {
      if current.None? {
        items := [];
        return;
      }
      var idx := FindConv(conversations, current.value);
      if idx.Some? {
        var i := idx.value;
        conversations := conversations[i := conversations[i].(archived := true)];
      }
      current := None;
      items := Render();
    }

    /** A `conversation_list` event, followed by its rendering. */
    method OnList(list: seq<OfficeConv>) returns (items: seq<OfficeItem>)
      modifies this
      ensures view == old(view) && searchTerm == old(searchTerm)
      ensures (view == AdminChat.ActiveView && |list| > 0 && old(current).None?) ==> current == FirstActive(LoadedList(list))
      ensures !(view == AdminChat.ActiveView && |list| > 0 && old(current).None?) ==> current == old(current)
      ensures items == Rendered(LoadedList(list), view, searchTerm, current)
      ensures conversations == MarkedAll(LoadedList(list), view, searchTerm)
      ensures forall it :: it in items ==> !it.newMessage
    {
      conversations := LoadedList(list);
      if view == AdminChat.ActiveView && |conversations| > 0 && current.None? {
        current := FirstActive(conversations);
      }
      items := Render();
      LoadedListFlagsNothing(list, view, searchTerm, current);
    }

    /** A `conversation_update` event, followed by its rendering. */
    method OnUpdate(updated: OfficeConv) returns (items: seq<OfficeItem>)
      modifies this
      ensures current == old(current) && view == old(view) && searchTerm == old(searchTerm)
      ensures items == Rendered(MergedList(old(conversations), updated), view, searchTerm, current)
      ensures conversations == MarkedAll(MergedList(old(conversations), updated), view, searchTerm)
    {
      conversations := MergedList(conversations, updated);
      items := Render();
    }
  }
}
