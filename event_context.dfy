/**
 * The client-side event store of frontend/src/contexts/EventContext.tsx.
 *
 * The provider keeps an ordered list of events. Each operation builds a new
 * list with `map`, `filter` or a spread and hands it to `saveEvents`, which
 * replaces the list wholesale. The list builders are the functions of this
 * module; the `EventStore` class holds the list and its methods are the
 * provider's operations.
 */
module EventContext {
  import opened EventTypes
  import opened Seqs

  // ---------------------------------------------------------------------
  // Invariants the store can be asked about

  /** No two events share an id. */
  ghost predicate UniqueIds(es: seq<Event>) {
    forall i, j :: 0 <= i < j < |es| ==> es[i].id != es[j].id
  }

  /** No event in the list has this id. */
  ghost predicate IdUnused(es: seq<Event>, id: string) {
    forall i :: 0 <= i < |es| ==> es[i].id != id
  }

  /** The per-event invariant `rsvpEvent` tries to keep: within capacity, nobody listed twice. */
  ghost predicate Consistent(e: Event) {
    |e.attendees| <= e.capacity && NoDuplicates(e.attendees)
  }

  ghost predicate AllConsistent(es: seq<Event>) {
    forall i :: 0 <= i < |es| ==> Consistent(es[i])
  }

  // ---------------------------------------------------------------------
  // Lookup: `events.find(e => e.id === id)`

  /** Position of the first event with this id, the one `find` returns. */
  function FirstIndex(es: seq<Event>, id: string): (r: Option<nat>)
    ensures r.Some? ==> r.value < |es| && es[r.value].id == id
    ensures r.Some? ==> forall j :: 0 <= j < r.value ==> es[j].id != id
    ensures r.None? <==> IdUnused(es, id)
  {
    if es == [] then None
    else if es[0].id == id then Some(0)
    else match FirstIndex(es[1..], id)
      case None => None
      case Some(k) => Some(k + 1)
  }

  /** `events.find(e => e.id === id)`. */
  function Find(es: seq<Event>, id: string): (r: Option<Event>)
    ensures r.None? <==> IdUnused(es, id)
    ensures r.Some? ==> r.value in es && r.value.id == id
    ensures r.Some? ==> exists k :: 0 <= k < |es| && es[k] == r.value &&
                                    forall j :: 0 <= j < k ==> es[j].id != id
  {
    match FirstIndex(es, id)
    case None => None
    case Some(i) => Some(es[i])
  }

  /** With unique ids the first match is the only match. */
  lemma FirstIsOnly(es: seq<Event>, id: string, k: nat)
    requires UniqueIds(es) && FirstIndex(es, id) == Some(k)
    ensures forall i :: 0 <= i < |es| && es[i].id == id ==> i == k
  {
  }

  // ---------------------------------------------------------------------
  // `events.map(e => e.id === id ? f(e) : e)`

  /** Applies `f` to every event with this id and leaves the rest alone. */
  function MapWhereId(es: seq<Event>, id: string, f: Event -> Event): (r: seq<Event>)
    ensures |r| == |es|
    ensures forall i :: 0 <= i < |es| ==> r[i] == if es[i].id == id then f(es[i]) else es[i]
  {
    if es == [] then []
    else [if es[0].id == id then f(es[0]) else es[0]] + MapWhereId(es[1..], id, f)
  }

  /** A map whose update keeps ids keeps the first match where it was. */
  lemma {:induction false} MapKeepsFirstIndex(es: seq<Event>, id: string, f: Event -> Event)
    requires forall e: Event :: e.id == id ==> f(e).id == id
    ensures FirstIndex(MapWhereId(es, id, f), id) == FirstIndex(es, id)
  {
    if es != [] {
      var r := MapWhereId(es, id, f);
      assert r[1..] == MapWhereId(es[1..], id, f);
      MapKeepsFirstIndex(es[1..], id, f);
    }
  }

  // ---------------------------------------------------------------------
  // addEvent (EventContext.tsx:72-80)

  /** `{ ...eventData, id, attendees: [], createdAt }`. */
  function NewEvent(data: EventData, id: string, createdAt: Timestamp): (e: Event)
    ensures e.id == id && e.attendees == [] && e.createdAt == createdAt
    ensures e.title == data.title && e.description == data.description
    ensures e.date == data.date && e.time == data.time && e.location == data.location
    ensures e.capacity == data.capacity && e.imageUrl == data.imageUrl
    ensures e.createdBy == data.createdBy
  {
    Event(id, data.title, data.description, data.date, data.time, data.location,
          data.capacity, [], data.imageUrl, data.createdBy, createdAt)
  }

  /** `[...events, newEvent]`: the old list, unchanged, followed by the new event. */
  function Added(es: seq<Event>, data: EventData, id: string, createdAt: Timestamp): (r: seq<Event>)
    ensures |r| == |es| + 1
    ensures r[..|es|] == es
    ensures r[|es|] == NewEvent(data, id, createdAt)
  {
    es + [NewEvent(data, id, createdAt)]
  }

  /** Adding under a fresh id and then deleting that id gives back the old list. */
  lemma AddThenDelete(es: seq<Event>, data: EventData, id: string, createdAt: Timestamp)
    requires IdUnused(es, id)
    ensures Deleted(Added(es, data, id, createdAt), id) == es
  {
    var e := NewEvent(data, id, createdAt);
    var keep := (x: Event) => x.id != id;
    FilterConcat(es, [e], keep);
    FilterAllPass(es, keep);
    assert Filter([e], keep) == [];
  }

  /** An event added under a fresh id is what a later lookup of that id finds. */
  lemma {:induction false} AddThenFind(es: seq<Event>, data: EventData, id: string, createdAt: Timestamp)
    requires IdUnused(es, id)
    ensures FirstIndex(Added(es, data, id, createdAt), id) == Some(|es|)
    ensures Find(Added(es, data, id, createdAt), id) == Some(NewEvent(data, id, createdAt))
  {
    if es != [] {
      var r := Added(es, data, id, createdAt);
      assert r[1..] == Added(es[1..], data, id, createdAt);
      AddThenFind(es[1..], data, id, createdAt);
    }
  }

  /** Adding keeps ids unique when the new id is fresh, and keeps every event consistent when the capacity is not negative. */
  lemma AddKeepsInvariants(es: seq<Event>, data: EventData, id: string, createdAt: Timestamp)
    ensures UniqueIds(es) && IdUnused(es, id) ==> UniqueIds(Added(es, data, id, createdAt))
    ensures AllConsistent(es) && data.capacity >= 0 ==> AllConsistent(Added(es, data, id, createdAt))
  {
    var r := Added(es, data, id, createdAt);
    assert forall i :: 0 <= i < |es| ==> r[i] == es[i];
  }

  // ---------------------------------------------------------------------
  // updateEvent (EventContext.tsx:82-86)

  /** `{ ...event, ...eventData }`: the patch's keys overwrite, every other field is kept. */
  function Merge(e: Event, p: EventPatch): (r: Event)
    ensures p.id.Some? ==> r.id == p.id.value
    ensures p.id.None? ==> r.id == e.id
    ensures p.title.Some? ==> r.title == p.title.value
    ensures p.title.None? ==> r.title == e.title
    ensures p.description.Some? ==> r.description == p.description.value
    ensures p.description.None? ==> r.description == e.description
    ensures p.date.Some? ==> r.date == p.date.value
    ensures p.date.None? ==> r.date == e.date
    ensures p.time.Some? ==> r.time == p.time.value
    ensures p.time.None? ==> r.time == e.time
    ensures p.location.Some? ==> r.location == p.location.value
    ensures p.location.None? ==> r.location == e.location
    ensures p.capacity.Some? ==> r.capacity == p.capacity.value
    ensures p.capacity.None? ==> r.capacity == e.capacity
    ensures p.attendees.Some? ==> r.attendees == p.attendees.value
    ensures p.attendees.None? ==> r.attendees == e.attendees
    ensures p.imageUrl.Some? ==> r.imageUrl == p.imageUrl.value
    ensures p.imageUrl.None? ==> r.imageUrl == e.imageUrl
    ensures p.createdBy.Some? ==> r.createdBy == p.createdBy.value
    ensures p.createdBy.None? ==> r.createdBy == e.createdBy
    ensures p.createdAt.Some? ==> r.createdAt == p.createdAt.value
    ensures p.createdAt.None? ==> r.createdAt == e.createdAt
  {
    Event(p.id.GetOr(e.id), p.title.GetOr(e.title), p.description.GetOr(e.description),
          p.date.GetOr(e.date), p.time.GetOr(e.time), p.location.GetOr(e.location),
          p.capacity.GetOr(e.capacity), p.attendees.GetOr(e.attendees),
          p.imageUrl.GetOr(e.imageUrl), p.createdBy.GetOr(e.createdBy),
          p.createdAt.GetOr(e.createdAt))
  }

  /** The patch with no keys. */
  function EmptyPatch(): EventPatch {
    EventPatch(None, None, None, None, None, None, None, None, None, None, None)
  }

  /** Merging an empty patch changes nothing; merging the same patch twice is merging it once. */
  lemma MergeLaws(e: Event, p: EventPatch)
    ensures Merge(e, EmptyPatch()) == e
    ensures Merge(Merge(e, p), p) == Merge(e, p)
  {
  }

  /** `events.map(event => event.id === id ? { ...event, ...eventData } : event)`. */
  function Updated(es: seq<Event>, id: string, p: EventPatch): (r: seq<Event>)
    ensures |r| == |es|
    ensures forall i :: 0 <= i < |es| && es[i].id != id ==> r[i] == es[i]
    ensures forall i :: 0 <= i < |es| && es[i].id == id ==> r[i] == Merge(es[i], p)
  {
    MapWhereId(es, id, e => Merge(e, p))
  }

  /** Applying the same update twice is applying it once, whatever the patch (even one that renames the id). */
  lemma UpdateIdempotent(es: seq<Event>, id: string, p: EventPatch)
    ensures Updated(Updated(es, id, p), id, p) == Updated(es, id, p)
  {
    var once := Updated(es, id, p);
    var twice := Updated(once, id, p);
    forall i | 0 <= i < |es| ensures twice[i] == once[i] {
      if es[i].id == id {
        MergeLaws(es[i], p);
      }
    }
  }

  /** An update that does not touch the id keeps ids unique. */
  lemma UpdateKeepsUniqueIds(es: seq<Event>, id: string, p: EventPatch)
    requires UniqueIds(es) && p.id.None?
    ensures UniqueIds(Updated(es, id, p))
  {
    var r := Updated(es, id, p);
    assert forall i :: 0 <= i < |es| ==> r[i].id == es[i].id;
  }

  /**
   * updateEvent does not keep attendees within capacity: lowering the capacity
   * of an event below its attendee count goes through.
   */
  lemma UpdateCanBreakCapacity()
    ensures var e := Event("1", "t", "d", 0, "18:00", "l", 2, ["a", "b"], "u", "c", 0);
            var p := EmptyPatch().(capacity := Some(1));
            Consistent(e) && !Consistent(Updated([e], "1", p)[0])
  {
    var e := Event("1", "t", "d", 0, "18:00", "l", 2, ["a", "b"], "u", "c", 0);
    assert e.attendees[0] != e.attendees[1];
  }

  // ---------------------------------------------------------------------
  // deleteEvent (EventContext.tsx:88-90)

  /** `events.filter(event => event.id !== id)`. */
  function Deleted(es: seq<Event>, id: string): (r: seq<Event>)
    ensures IdUnused(r, id)
    ensures forall e :: multiset(r)[e] == if e.id != id then multiset(es)[e] else 0
    ensures IsSubsequence(r, es)
  {
    var r := Filter(es, (e: Event) => e.id != id);
    forall i | 0 <= i < |r| ensures r[i].id != id {
      FilterMembers(es, (e: Event) => e.id != id, r[i]);
    }
    r
  }

  /** Deleting keeps ids unique and every event as consistent as it was. */
  lemma DeleteKeepsInvariants(es: seq<Event>, id: string)
    ensures UniqueIds(es) ==> UniqueIds(Deleted(es, id))
    ensures AllConsistent(es) ==> AllConsistent(Deleted(es, id))
  {
    var r := Deleted(es, id);
    SubsequenceIndices(r, es);
    SubsequenceMembers(r, es);
  }

  /** The elements of a subsequence sit at strictly increasing positions of the sequence. */
  lemma {:induction false} SubsequenceIndices(r: seq<Event>, s: seq<Event>)
    requires IsSubsequence(r, s)
    ensures UniqueIds(s) ==> UniqueIds(r)
    decreases |s|
  {
    if r != [] && UniqueIds(s) {
      if r[0] == s[0] && IsSubsequence(r[1..], s[1..]) {
        SubsequenceIndices(r[1..], s[1..]);
        SubsequenceMembers(r[1..], s[1..]);
        forall i, j | 0 <= i < j < |r| ensures r[i].id != r[j].id {
          assert r[j] == r[1..][j - 1];
          assert r[j] in s[1..];
          if i > 0 {
            assert r[i] == r[1..][i - 1];
          }
        }
      } else {
        SubsequenceIndices(r, s[1..]);
      }
    }
  }

  // ---------------------------------------------------------------------
  // rsvpEvent (EventContext.tsx:92-112)

  /** The guard of rsvpEvent: the first event with the id exists, has room, and does not list the user. */
  function CanRsvp(es: seq<Event>, eventId: string, userId: string): bool {
    match Find(es, eventId)
    case None => false
    case Some(e) => !(|e.attendees| >= e.capacity) && userId !in e.attendees
  }

  /** The three refusals of rsvpEvent, and that nothing else refuses. */
  lemma RsvpRefusals(es: seq<Event>, eventId: string, userId: string)
    ensures IdUnused(es, eventId) ==> !CanRsvp(es, eventId, userId)
    ensures forall k :: FirstIndex(es, eventId) == Some(k) && |es[k].attendees| >= es[k].capacity ==>
              !CanRsvp(es, eventId, userId)
    ensures forall k :: FirstIndex(es, eventId) == Some(k) && userId in es[k].attendees ==>
              !CanRsvp(es, eventId, userId)
    ensures CanRsvp(es, eventId, userId) <==>
              exists k :: FirstIndex(es, eventId) == Some(k) &&
                          |es[k].attendees| < es[k].capacity && userId !in es[k].attendees
  {
    if CanRsvp(es, eventId, userId) {
      var k := FirstIndex(es, eventId).value;
      assert FirstIndex(es, eventId) == Some(k);
    }
  }

  /** `{ ...e, attendees: [...e.attendees, userId] }`. */
  function AddAttendee(e: Event, userId: string): (r: Event)
    ensures r.(attendees := e.attendees) == e
    ensures |r.attendees| == |e.attendees| + 1 && r.attendees[..|e.attendees|] == e.attendees
    ensures multiset(r.attendees) == multiset(e.attendees) + multiset{userId}
  {
    e.(attendees := e.attendees + [userId])
  }

  /** The list rsvpEvent saves: `userId` appended to every event with the id, all else as it was. */
  function WithAttendeeAdded(es: seq<Event>, eventId: string, userId: string): (r: seq<Event>)
    ensures |r| == |es|
    ensures forall i :: 0 <= i < |es| ==> r[i].id == es[i].id
    ensures forall i :: 0 <= i < |es| && es[i].id != eventId ==> r[i] == es[i]
    ensures forall i :: 0 <= i < |es| && es[i].id == eventId ==>
              r[i] == es[i].(attendees := es[i].attendees + [userId])
  {
    MapWhereId(es, eventId, e => AddAttendee(e, userId))
  }

  /** A successful rsvp keeps the event it checked within capacity and free of duplicate attendees. */
  lemma RsvpKeepsTargetConsistent(es: seq<Event>, eventId: string, userId: string, k: nat)
    requires CanRsvp(es, eventId, userId) && FirstIndex(es, eventId) == Some(k)
    requires Consistent(es[k])
    ensures Consistent(WithAttendeeAdded(es, eventId, userId)[k])
    ensures |WithAttendeeAdded(es, eventId, userId)[k].attendees| == |es[k].attendees| + 1
  {
    var a := es[k].attendees;
    var b := a + [userId];
    assert b == WithAttendeeAdded(es, eventId, userId)[k].attendees;
    forall i, j | 0 <= i < j < |b| ensures b[i] != b[j] {
      if j == |a| {
        assert b[i] == a[i];
      } else {
        assert b[i] == a[i] && b[j] == a[j];
      }
    }
  }

  /** With unique ids, a successful rsvp keeps the whole list unique and consistent. */
  lemma RsvpKeepsInvariants(es: seq<Event>, eventId: string, userId: string)
    requires UniqueIds(es) && CanRsvp(es, eventId, userId)
    ensures UniqueIds(WithAttendeeAdded(es, eventId, userId))
    ensures AllConsistent(es) ==> AllConsistent(WithAttendeeAdded(es, eventId, userId))
  {
    var k := FirstIndex(es, eventId).value;
    FirstIsOnly(es, eventId, k);
    if AllConsistent(es) {
      RsvpKeepsTargetConsistent(es, eventId, userId, k);
    }
  }

  /** The user is listed for the event after a successful rsvp, as its last attendee. */
  lemma RsvpThenFind(es: seq<Event>, eventId: string, userId: string)
    requires CanRsvp(es, eventId, userId)
    ensures var found := Find(WithAttendeeAdded(es, eventId, userId), eventId);
            found.Some? && found.value.attendees == Find(es, eventId).value.attendees + [userId]
  {
    MapKeepsFirstIndex(es, eventId, e => AddAttendee(e, userId));
  }

  // ---------------------------------------------------------------------
  // cancelRsvp (EventContext.tsx:114-120)

  /** `{ ...e, attendees: e.attendees.filter(id => id !== userId) }`. */
  function RemoveAttendee(e: Event, userId: string): (r: Event)
    ensures r.(attendees := e.attendees) == e
    ensures userId !in r.attendees
    ensures forall a :: a != userId ==> multiset(r.attendees)[a] == multiset(e.attendees)[a]
    ensures IsSubsequence(r.attendees, e.attendees)
  {
    var kept := Filter(e.attendees, a => a != userId);
    assert multiset(kept)[userId] == 0;
    e.(attendees := kept)
  }

  /** The list cancelRsvp saves: `userId` removed from every event with the id, all else as it was. */
  function WithoutAttendee(es: seq<Event>, eventId: string, userId: string): (r: seq<Event>)
    ensures |r| == |es|
    ensures forall i :: 0 <= i < |es| ==> r[i].id == es[i].id
    ensures forall i :: 0 <= i < |es| && es[i].id != eventId ==> r[i] == es[i]
    ensures forall i :: 0 <= i < |es| && es[i].id == eventId ==>
              r[i] == es[i].(attendees := Filter(es[i].attendees, a => a != userId))
  {
    MapWhereId(es, eventId, e => RemoveAttendee(e, userId))
  }

  /** What cancelRsvp does to a matching event's attendees: the user is gone, the others stay in order. */
  lemma CancelRemovesUser(es: seq<Event>, eventId: string, userId: string, i: nat)
    requires i < |es| && es[i].id == eventId
    ensures var after := WithoutAttendee(es, eventId, userId)[i].attendees;
            userId !in after &&
            IsSubsequence(after, es[i].attendees) &&
            forall a :: a != userId ==> multiset(after)[a] == multiset(es[i].attendees)[a]
  {
    FilterMembers(es[i].attendees, a => a != userId, userId);
  }

  /** Cancelling for an id no event has changes nothing. */
  lemma CancelUnknownId(es: seq<Event>, eventId: string, userId: string)
    requires IdUnused(es, eventId)
    ensures WithoutAttendee(es, eventId, userId) == es
  {
  }

  /** Cancelling twice is cancelling once. */
  lemma CancelIdempotent(es: seq<Event>, eventId: string, userId: string)
    ensures WithoutAttendee(WithoutAttendee(es, eventId, userId), eventId, userId) ==
            WithoutAttendee(es, eventId, userId)
  {
    var once := WithoutAttendee(es, eventId, userId);
    var twice := WithoutAttendee(once, eventId, userId);
    forall i | 0 <= i < |es| ensures twice[i] == once[i] {
      if es[i].id == eventId {
        FilterIdempotent(es[i].attendees, a => a != userId);
      }
    }
  }

  /** Cancelling keeps ids as they were and every event as consistent as it was. */
  lemma CancelKeepsInvariants(es: seq<Event>, eventId: string, userId: string)
    ensures UniqueIds(es) ==> UniqueIds(WithoutAttendee(es, eventId, userId))
    ensures AllConsistent(es) ==> AllConsistent(WithoutAttendee(es, eventId, userId))
  {
    var r := WithoutAttendee(es, eventId, userId);
    forall i | 0 <= i < |es| && Consistent(es[i]) ensures Consistent(r[i]) {
      if es[i].id == eventId {
        FilterNoDuplicates(es[i].attendees, a => a != userId);
      }
    }
  }

  /** After cancelling, the event found under the id no longer lists the user. */
  lemma CancelThenFind(es: seq<Event>, eventId: string, userId: string)
    requires !IdUnused(es, eventId)
    ensures var found := Find(WithoutAttendee(es, eventId, userId), eventId);
            found.Some? && userId !in found.value.attendees
  {
    MapKeepsFirstIndex(es, eventId, e => RemoveAttendee(e, userId));
    var k := FirstIndex(es, eventId).value;
    CancelRemovesUser(es, eventId, userId, k);
  }

  /**
   * rsvp followed by cancel for the same user and event gives back the list
   * before the rsvp, provided no event with that id listed the user.
   */
  lemma RsvpThenCancel(es: seq<Event>, eventId: string, userId: string)
    requires forall i :: 0 <= i < |es| && es[i].id == eventId ==> userId !in es[i].attendees
    ensures WithoutAttendee(WithAttendeeAdded(es, eventId, userId), eventId, userId) == es
  {
    var mid := WithAttendeeAdded(es, eventId, userId);
    var back := WithoutAttendee(mid, eventId, userId);
    forall i | 0 <= i < |es| ensures back[i] == es[i] {
      if es[i].id == eventId {
        var a := es[i].attendees;
        var keep := (x: string) => x != userId;
        FilterConcat(a, [userId], keep);
        FilterAllPass(a, keep);
        assert Filter([userId], keep) == [];
      }
    }
  }

  /** With unique ids, a successful rsvp followed by cancel restores the list. */
  lemma RsvpThenCancelRestores(es: seq<Event>, eventId: string, userId: string)
    requires UniqueIds(es) && CanRsvp(es, eventId, userId)
    ensures WithoutAttendee(WithAttendeeAdded(es, eventId, userId), eventId, userId) == es
  {
    var k := FirstIndex(es, eventId).value;
    FirstIsOnly(es, eventId, k);
    RsvpThenCancel(es, eventId, userId);
  }

  // ---------------------------------------------------------------------
  // Initial contents when nothing is saved (EventContext.tsx:15-55)

  const TechMeetupDescription: string := "Join us for an evening of networking and tech talks. Learn about the latest trends in AI, web development, and cloud computing from industry experts."
  const DesignWorkshopDescription: string := "A hands-on workshop covering UI/UX fundamentals, design systems, and prototyping. Perfect for beginners and intermediate designers."
  const NetworkingNightDescription: string := "Connect with fellow entrepreneurs, investors, and startup enthusiasts. Share ideas, find co-founders, and explore collaboration opportunities."
  const TechMeetupImage: string := "https://images.unsplash.com/photo-1540575467063-178a50c2df87?w=800"
  const DesignWorkshopImage: string := "https://images.unsplash.com/photo-1558403194-611308249627?w=800"
  const NetworkingNightImage: string := "https://images.unsplash.com/photo-1511795409834-ef04bbd61622?w=800"

  /** The three sample events; `createdAt` is the clock reading taken when they are built. */
  function SampleEvents(createdAt: Timestamp): seq<Event> {
    [
      Event("1", "Tech Meetup 2025",
            TechMeetupDescription,
            1766880000000, "18:00", "Innovation Hub, 123 Tech Street", 50, ["user1", "user2"],
            TechMeetupImage, "1", createdAt),
      Event("2", "Design Workshop",
            DesignWorkshopDescription,
            1767052800000, "10:00", "Creative Space, 456 Art Avenue", 25, [],
            DesignWorkshopImage, "2", createdAt),
      Event("3", "Startup Networking Night",
            NetworkingNightDescription,
            1767571200000, "19:00", "Rooftop Lounge, Business Center", 100, ["user1"],
            NetworkingNightImage, "1", createdAt)
    ]
  }

  /** The sample list starts the store with unique ids and every event consistent. */
  lemma SampleEventsConsistent(createdAt: Timestamp)
    ensures |SampleEvents(createdAt)| == 3
    ensures UniqueIds(SampleEvents(createdAt)) && AllConsistent(SampleEvents(createdAt))
  {
    var r := SampleEvents(createdAt);
    assert r[0].id == "1" && r[1].id == "2" && r[2].id == "3";
    assert r[0].attendees == ["user1", "user2"] && r[1].attendees == [] && r[2].attendees == ["user1"];
    assert r[0].capacity == 50 && r[1].capacity == 25 && r[2].capacity == 100;
    assert "user1" != "user2";
  }

  // ---------------------------------------------------------------------
  // The provider's state and operations

  /** The `events` state of the provider; every operation replaces it through SaveEvents. */
  class EventStore {
    var events: seq<Event>

    /** The state starts from what was loaded: the saved list or the sample events. */
    constructor (initial: seq<Event>)
      ensures events == initial
    {
      events := initial;
    }

    /** `saveEvents`: replaces the list (the localStorage write is not modelled). */
    method SaveEvents(newEvents: seq<Event>)
      modifies this
      ensures events == newEvents
    {
      events := newEvents;
    }

    /** `addEvent`, with the id the source takes from `Date.now()` and the creation time as parameters. */
    method AddEvent(data: EventData, id: string, createdAt: Timestamp)
      modifies this
      ensures events == Added(old(events), data, id, createdAt)
      ensures old(UniqueIds(events)) && IdUnused(old(events), id) ==> UniqueIds(events)
      ensures old(AllConsistent(events)) && data.capacity >= 0 ==> AllConsistent(events)
    {
      AddKeepsInvariants(events, data, id, createdAt);
      var newEvent := NewEvent(data, id, createdAt);
      SaveEvents(events + [newEvent]);
    }

    /** `updateEvent`. */
    method UpdateEvent(id: string, patch: EventPatch)
      modifies this
      ensures events == Updated(old(events), id, patch)
      ensures old(UniqueIds(events)) && patch.id.None? ==> UniqueIds(events)
    {
      if UniqueIds(events) && patch.id.None? {
        UpdateKeepsUniqueIds(events, id, patch);
      }
      SaveEvents(Updated(events, id, patch));
    }

    /** `deleteEvent`. */
    method DeleteEvent(id: string)
      modifies this
      ensures events == Deleted(old(events), id)
      ensures old(UniqueIds(events)) ==> UniqueIds(events)
      ensures old(AllConsistent(events)) ==> AllConsistent(events)
    {
      DeleteKeepsInvariants(events, id);
      SaveEvents(Deleted(events, id));
    }

    /** `rsvpEvent`: refuses, leaving the list alone, unless the guard holds; otherwise appends the user. */
    method RsvpEvent(eventId: string, userId: string) returns (ok: bool)
      modifies this
      ensures ok == CanRsvp(old(events), eventId, userId)
      ensures !ok ==> events == old(events)
      ensures ok ==> events == WithAttendeeAdded(old(events), eventId, userId)
      ensures old(UniqueIds(events)) ==> UniqueIds(events)
      ensures old(UniqueIds(events)) && old(AllConsistent(events)) ==> AllConsistent(events)
    {
      var found := Find(events, eventId);
      if found.None? {
        return false;
      }
      var event := found.value;
      if |event.attendees| >= event.capacity {
        return false;
      }
      if userId in event.attendees {
        return false;
      }
      if UniqueIds(events) {
        RsvpKeepsInvariants(events, eventId, userId);
      }
      SaveEvents(WithAttendeeAdded(events, eventId, userId));
      return true;
    }

    /** `cancelRsvp`. */
    method CancelRsvp(eventId: string, userId: string)
      modifies this
      ensures events == WithoutAttendee(old(events), eventId, userId)
      ensures old(UniqueIds(events)) ==> UniqueIds(events)
      ensures old(AllConsistent(events)) ==> AllConsistent(events)
    {
      CancelKeepsInvariants(events, eventId, userId);
      SaveEvents(WithoutAttendee(events, eventId, userId));
    }
  }
}
