/** The completed-schedule mover (Completed-mover/server.js): schedules the
    office marked `Completed` are copied to the `schedulesCompleted`
    collection and removed from `schedules`, and a newest-first history of
    at most 50 moves is kept in memory. */
module CompletedMover {
  import opened Common
  import opened Records

  const HistoryLimit: nat := 50

  /** One entry of the history; a missing mileage is `null` (None). */
  datatype HistoryEntry = HistoryEntry(
    id: string, customerName: Option<string>, email: Option<string>, completedBy: Option<string>,
    date: Option<string>, time: Option<string>, serviceMilage: Option<int>, movedAt: string)

  function EntryOf(id: string, doc: Schedule, movedAt: string): (e: HistoryEntry)
    ensures e.id == id && e.customerName == doc.customerName && e.email == doc.email
    ensures e.completedBy == doc.completedBy && e.date == doc.date && e.time == doc.time
    ensures e.serviceMilage == doc.serviceMilage && e.movedAt == movedAt
  {
    HistoryEntry(id, doc.customerName, doc.email, doc.completedBy, doc.date, doc.time, doc.serviceMilage, movedAt)
  }

  /** The ids of the documents with `Completed: true`. */
  function CompletedIds(ss: map<string, Schedule>): (ids: set<string>)
    ensures forall id :: id in ids <==> id in ss && ss[id].completed == Some(true)
  {
    set id | id in ss && ss[id].completed == Some(true)
  }

  /** The ids of `order` that are missing from the target, in order: the
      ones that are moved. */
  function MovedSeq(order: seq<string>, target: map<string, Schedule>): (r: seq<string>)
    ensures forall x :: x in r <==> x in order && x !in target
    ensures |r| <= |order|
  {
    if order == [] then []
    else
      var last := order[|order| - 1];
      assert forall x :: x in order <==> x in order[..|order| - 1] || x == last;
      MovedSeq(order[..|order| - 1], target) + (if last !in target then [last] else [])
  }

  /** The history entries of the moved documents, oldest first. */
  function Entries(ids: seq<string>, docs: map<string, Schedule>, movedAt: string): (es: seq<HistoryEntry>)
    requires forall x :: x in ids ==> x in docs
    ensures |es| == |ids| && forall i :: 0 <= i < |ids| ==> es[i] == EntryOf(ids[i], docs[ids[i]], movedAt)
  {
    seq(|ids|, i requires 0 <= i < |ids| => EntryOf(ids[i], docs[ids[i]], movedAt))
  }

  /** At most the first 50 entries: the newest ones, in their order. */
  function Cap(h: seq<HistoryEntry>): (r: seq<HistoryEntry>)
    ensures |r| <= HistoryLimit && |r| <= |h| && r == h[..|r|]
    ensures |h| <= HistoryLimit ==> r == h
    ensures |h| > HistoryLimit ==> r == h[..HistoryLimit]
  {
    if |h| > HistoryLimit then h[..HistoryLimit] else h
  }

  /** The history after recording the documents `ids` of `docs`, in that
      order, one at a time: each entry is put first, and the oldest is
      dropped beyond 50. */
  function Recorded(h: seq<HistoryEntry>, ids: seq<string>, docs: map<string, Schedule>, movedAt: string)
    : (r: seq<HistoryEntry>)
    requires forall x :: x in ids ==> x in docs
    ensures |h| <= HistoryLimit ==> |r| <= HistoryLimit
  {
    if ids == [] then h
    else
      var id := ids[|ids| - 1];
      Cap([EntryOf(id, docs[id], movedAt)] + Recorded(h, ids[..|ids| - 1], docs, movedAt))
  }

  function Reverse(es: seq<HistoryEntry>): (r: seq<HistoryEntry>)
    ensures |r| == |es| && forall i :: 0 <= i < |es| ==> r[i] == es[|es| - 1 - i]
  {
    seq(|es|, i requires 0 <= i < |es| => es[|es| - 1 - i])
  }

  /** Reversing twice gives the entries back. */
  lemma ReverseInvolution(es: seq<HistoryEntry>)
    ensures Reverse(Reverse(es)) == es
  {
  }

  lemma ReverseSnoc(es: seq<HistoryEntry>, e: HistoryEntry)
    ensures Reverse(es + [e]) == [e] + Reverse(es)
  {
  }

  /** Dropping the tail before or after putting an entry first comes to
      the same. */
  lemma CapCons(e: HistoryEntry, xs: seq<HistoryEntry>)
    ensures Cap([e] + Cap(xs)) == Cap([e] + xs)
  {
    if |xs| > HistoryLimit {
      assert ([e] + xs[..HistoryLimit])[..HistoryLimit] == ([e] + xs)[..HistoryLimit];
    }
  }

  /** The entries of one more document are those before it plus its own. */
  lemma EntriesSnoc(ids: seq<string>, id: string, docs: map<string, Schedule>, movedAt: string)
    requires forall x :: x in ids ==> x in docs
    requires id in docs
    ensures Entries(ids + [id], docs, movedAt) == Entries(ids, docs, movedAt) + [EntryOf(id, docs[id], movedAt)]
  {
  }

  /** One more document recorded: its entry is put first in the history. */
  lemma RecordedOneMore(h: seq<HistoryEntry>, ids: seq<string>, id: string, docs: map<string, Schedule>, movedAt: string)
    requires forall x :: x in ids ==> x in docs
    requires id in docs
    ensures Recorded(h, ids + [id], docs, movedAt) == Cap([EntryOf(id, docs[id], movedAt)] + Recorded(h, ids, docs, movedAt))
  {
    assert (ids + [id])[..|ids|] == ids;
  }

  /** The recorded history is the newest 50 entries of all, newest first. */
  lemma {:induction false} RecordedIsNewestFirst(h: seq<HistoryEntry>, ids: seq<string>,
                                                 docs: map<string, Schedule>, movedAt: string)
    requires forall x :: x in ids ==> x in docs
    requires |h| <= HistoryLimit
    ensures Recorded(h, ids, docs, movedAt) == Cap(Reverse(Entries(ids, docs, movedAt)) + h)
    decreases |ids|
  {
    if ids != [] {
      var front := ids[..|ids| - 1];
      var id := ids[|ids| - 1];
      var e := EntryOf(id, docs[id], movedAt);
      var older := Reverse(Entries(front, docs, movedAt));
      assert ids == front + [id];
      RecordedIsNewestFirst(h, front, docs, movedAt);
      RecordedOneMore(h, front, id, docs, movedAt);
      CapCons(e, older + h);
      EntriesSnoc(front, id, docs, movedAt);
      ReverseSnoc(Entries(front, docs, movedAt), e);
      assert [e] + (older + h) == ([e] + older) + h;
    }
  }

  /** Extending the prefix of a duplicate-free order by one id. */
  lemma MovedSeqStep(order: seq<string>, k: nat, t0: map<string, Schedule>)
    requires k < |order| && forall i, j :: 0 <= i < j < |order| ==> order[i] != order[j]
    ensures order[k] !in MovedSeq(order[..k], t0)
    ensures MovedSeq(order[..k + 1], t0) == MovedSeq(order[..k], t0) + (if order[k] !in t0 then [order[k]] else [])
  {
    assert order[..k + 1][..k] == order[..k];
  }

  /** The documents `moved`, copied from `found`. */
  function Copied(found: map<string, Schedule>, moved: seq<string>): (r: map<string, Schedule>)
    requires forall x :: x in moved ==> x in found
    ensures forall x :: x in r <==> x in moved
    ensures forall x :: x in r ==> r[x] == found[x]
  {
    map x | x in moved :: found[x]
  }

  function Members(moved: seq<string>): (r: set<string>)
    ensures forall x :: x in r <==> x in moved
  {
    set x | x in moved
  }

  /** One more document moved: the target gains it and the source loses it. */
  lemma MovedOneMore(t0: map<string, Schedule>, found: map<string, Schedule>, moved: seq<string>, id: string)
    requires forall x :: x in moved ==> x in found
    requires id in found
    ensures t0 + Copied(found, moved + [id]) == (t0 + Copied(found, moved))[id := found[id]]
    ensures found - Members(moved + [id]) == (found - Members(moved)) - {id}
  {
  }

  /** A document already in the target is never overwritten by a move,
      and every moved document arrives with the content it had in the
      source. */
  lemma MoveKeepsTarget(source: map<string, Schedule>, target: map<string, Schedule>, order: seq<string>)
    requires IsOrderOf(order, CompletedIds(source))
    ensures forall x :: x in target ==> (target + Copied(source, MovedSeq(order, target)))[x] == target[x]
    ensures forall x :: x in MovedSeq(order, target) ==> (target + Copied(source, MovedSeq(order, target)))[x] == source[x]
  {
  }

  /** The two collections and the history of the mover. */
  class Mover {
    var source: map<string, Schedule>
    var target: map<string, Schedule>
    var history: seq<HistoryEntry>

    /** The history never holds more than 50 entries. */
    predicate Valid()
      reads this
    {
      |history| <= HistoryLimit
    }

    constructor (source: map<string, Schedule>, target: map<string, Schedule>)
      ensures Valid() && this.source == source && this.target == target && history == []
    {
      this.source := source;
      this.target := target;
      history := [];
    }

    /** The state after moving the documents `moved` of `found` (the source
        as it was) into `t0` (the target as it was), starting from the
        history `h0`. */
    ghost predicate Tracks(t0: map<string, Schedule>, found: map<string, Schedule>,
                           h0: seq<HistoryEntry>, now: string, moved: seq<string>)
      reads this
    {
      Valid() && (forall x :: x in moved ==> x in found)
      && target == t0 + Copied(found, moved)
      && source == found - Members(moved)
      && history == Recorded(h0, moved, found, now)
    }

    /** `moveCompletedSchedules` with the completed documents returned in
        `order` and `now` as the moment of the run. A completed document
        already in the target stays where it is; any other is copied to the
        target, deleted from the source and recorded first in the history. */
    method Move(order: seq<string>, now: string)
      requires Valid() && IsOrderOf(order, CompletedIds(source))
      modifies this
      ensures Valid()
      ensures order == [] ==> source == old(source) && target == old(target) && history == old(history)
      ensures target == old(target) + Copied(old(source), MovedSeq(order, old(target)))
      ensures source == old(source) - Members(MovedSeq(order, old(target)))
      ensures history == Recorded(old(history), MovedSeq(order, old(target)), old(source), now)
    {
      if |order| == 0 {
        return;
      }
      var found := source;
      ghost var t0 := target;
      ghost var h0 := history;
      ghost var moved: seq<string> := [];
      for k := 0 to |order|
        invariant forall x :: x in order ==> x in found
        invariant moved == MovedSeq(order[..k], t0)
        invariant Tracks(t0, found, h0, now, moved)
      {
        MovedSeqStep(order, k, t0);
        moved := MoveIfAbsent(order[k], found[order[k]], t0, found, h0, now, moved);
      }
      assert order[..|order|] == order;
    }

    /** One document of the run: moved unless the target already has it. */
    method MoveIfAbsent(id: string, doc: Schedule, ghost t0: map<string, Schedule>, ghost found: map<string, Schedule>,
                        ghost h0: seq<HistoryEntry>, now: string, ghost moved: seq<string>)
      returns (ghost moved': seq<string>)
      requires Tracks(t0, found, h0, now, moved)
      requires id in found && doc == found[id] && id !in moved
      modifies this
      ensures Tracks(t0, found, h0, now, moved')
      ensures moved' == moved + (if id !in t0 then [id] else [])
    {
      moved' := moved;
      if id !in target {
        MovedOneMore(t0, found, moved, id);
        RecordedOneMore(h0, moved, id, found, now);
        MoveOne(id, doc, now);
        moved' := moved + [id];
      }
    }

    /** Moving one document: inserted into the target, deleted from the
        source, and put first in the history, whose last entry is dropped
        beyond 50. */
    method MoveOne(id: string, doc: Schedule, now: string)
      requires Valid()
      modifies this
      ensures Valid()
      ensures target == old(target)[id := doc] && source == old(source) - {id}
      ensures history == Cap([EntryOf(id, doc, now)] + old(history))
    {
      target := target[id := doc];
      source := source - {id};
      history := [EntryOf(id, doc, now)] + history;
      if |history| > HistoryLimit {
        history := history[..|history| - 1];
      }
    }
  }

  /** What a move does to one completed document `x`: moved with its
      content when the target lacks it, left in the source untouched
      otherwise. Documents that are not completed stay where they are. */
  lemma MoveOutcome(source: map<string, Schedule>, target: map<string, Schedule>, order: seq<string>, x: string)
    requires IsOrderOf(order, CompletedIds(source))
    ensures x in MovedSeq(order, target) <==> x in source && source[x].completed == Some(true) && x !in target
  {
  }
}
