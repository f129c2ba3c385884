/**
 * The figures of frontend/src/pages/Dashboard.tsx: the events the user
 * created, the events the user attends, and the totals shown above them.
 */
module Dashboard {
  import opened EventTypes
  import opened Seqs

  /** `event.createdBy === user?.id`: never true when nobody is signed in. */
  predicate CreatedByUser(e: Event, user: Option<User>) {
    user.Some? && e.createdBy == user.value.id
  }

  /** `user && event.attendees.includes(user.id)`: never true when nobody is signed in. */
  predicate AttendedByUser(e: Event, user: Option<User>) {
    user.Some? && user.value.id in e.attendees
  }

  /** `events.filter(event => event.createdBy === user?.id)`: empty when nobody is signed in. */
  function MyEvents(events: seq<Event>, user: Option<User>): (r: seq<Event>)
    ensures forall e :: multiset(r)[e] ==
              if user.Some? && e.createdBy == user.value.id then multiset(events)[e] else 0
    ensures IsSubsequence(r, events)
    ensures |r| <= |events|
    ensures user.None? ==> r == []
  {
    var r := Filter(events, (e: Event) => CreatedByUser(e, user));
    if user.None? then
      FilterNonePass(events, (e: Event) => CreatedByUser(e, user));
      r
    else r
  }

  /** `events.filter(event => user && event.attendees.includes(user.id))`: empty when nobody is signed in. */
  function AttendingEvents(events: seq<Event>, user: Option<User>): (r: seq<Event>)
    ensures forall e :: multiset(r)[e] ==
              if user.Some? && user.value.id in e.attendees then multiset(events)[e] else 0
    ensures IsSubsequence(r, events)
    ensures |r| <= |events|
    ensures user.None? ==> r == []
  {
    var r := Filter(events, (e: Event) => AttendedByUser(e, user));
    if user.None? then
      FilterNonePass(events, (e: Event) => AttendedByUser(e, user));
      r
    else r
  }

  /** The number of attendees over a list of events. */
  function SumAttendees(es: seq<Event>): nat {
    if es == [] then 0 else |es[0].attendees| + SumAttendees(es[1..])
  }

  /** `es.reduce((acc, event) => acc + event.attendees.length, acc)`, a left fold. */
  function ReduceAttendees(acc: int, es: seq<Event>): int
    decreases es
  {
    if es == [] then acc else ReduceAttendees(acc + |es[0].attendees|, es[1..])
  }

  /** The left fold the page writes adds up the attendee counts. */
  lemma {:induction false} ReduceIsSum(acc: int, es: seq<Event>)
    ensures ReduceAttendees(acc, es) == acc + SumAttendees(es)
    decreases es
  {
    if es != [] {
      ReduceIsSum(acc + |es[0].attendees|, es[1..]);
    }
  }

  /** Restricting to some of the events cannot raise the attendee total. */
  lemma {:induction false} SumOfFilterAtMost(es: seq<Event>, p: Event -> bool)
    ensures SumAttendees(Filter(es, p)) <= SumAttendees(es)
  {
    if es != [] {
      SumOfFilterAtMost(es[1..], p);
    }
  }

  /** What the dashboard shows: a redirect to login, or the two lists and four figures. */
  datatype Page =
    | RedirectToLogin
    | Stats(myEvents: seq<Event>, attendingEvents: seq<Event>,
            eventsCreated: int, eventsAttending: int, totalAttendees: int, totalEvents: int)

  /**
   * The dashboard: an unauthenticated visit only redirects. Otherwise the
   * created and attended lists, their lengths, the attendee total over the
   * created events (at most the total over all events), and the number of
   * events in the store, which bounds both counts.
   */
  function View(events: seq<Event>, session: Session): (p: Page)
    ensures p.RedirectToLogin? <==> !session.isAuthenticated
    ensures p.Stats? ==> p.myEvents == MyEvents(events, session.user)
    ensures p.Stats? ==> p.attendingEvents == AttendingEvents(events, session.user)
    ensures p.Stats? ==> p.eventsCreated == |p.myEvents| && p.eventsAttending == |p.attendingEvents|
    ensures p.Stats? ==> p.totalAttendees == SumAttendees(p.myEvents) <= SumAttendees(events)
    ensures p.Stats? ==> p.totalEvents == |events|
    ensures p.Stats? ==> 0 <= p.eventsCreated <= p.totalEvents && 0 <= p.eventsAttending <= p.totalEvents
  {
    if !session.isAuthenticated then RedirectToLogin
    else
      var mine := MyEvents(events, session.user);
      var attending := AttendingEvents(events, session.user);
      ReduceIsSum(0, mine);
      SumOfFilterAtMost(events, (e: Event) => CreatedByUser(e, session.user));
      Stats(mine, attending, |mine|, |attending|, ReduceAttendees(0, mine), |events|)
  }
}
