# Evently: the client-side event store and its views

Evently is a small event-listing and RSVP web application. Its frontend keeps
the list of events in a React context (`EventProvider`). The context adds,
updates and deletes events, and it adds or removes RSVPs. The pages read that
list and decide what to show:

- the event card shows a badge and an RSVP button;
- the detail page shows a status, an action button and the creator's controls;
- the dashboard shows a user's events and counts;
- the home page shows the upcoming events, filtered by a search and sorted by date.

This project models that store and those decision rules in Dafny:

| file | module | models |
|---|---|---|
| `seqs.dfy` | `Seqs` | `Array.prototype.filter`, stated by multisets (what is kept) and subsequences (in what order) |
| `event_types.dfy` | `EventTypes` | the `Event` record; the `Partial<Event>` patch; the user; the signed-in session; notices and routes |
| `event_context.dfy` | `EventContext` | the list operations of `EventProvider` as functions on `seq<Event>`; an `EventStore` class whose methods update its `events` field as the provider's callbacks do; the three sample events |
| `event_card.dfy` | `EventCard` | the card's derived flags, badge, RSVP button and click handler |
| `event_detail.dfy` | `EventDetail` | the detail page: lookup, status, action button, creator controls, RSVP and delete handlers |
| `dashboard.dfy` | `Dashboard` | the dashboard's redirect, its two filters and its four counts |
| `index_page.dfy` | `IndexPage` | the upcoming-events pipeline (date filter, case-insensitive search, sort by date) and the "N events found" label |

Modelling choices:

- **Lookups.** `find` returns the first event with the id, and `FirstIndex`/`Find` model exactly that.
  `map` and `filter` act on every event with the id, and `MapWhereId`/`Deleted` model exactly that.
  Nothing in the store stops two events from sharing an id. The invariant and round-trip claims built on the RSVP guard therefore assume `UniqueIds`.
  The pointwise account of what an RSVP or a cancel does (`WithAttendeeAdded`, `WithoutAttendee`, `RsvpThenCancel`) holds for any list.
- **Capacity.** The guard of `rsvpEvent` (frontend/src/contexts/EventContext.tsx:96-104) aims at "attendees ≤ capacity, no duplicate attendee" for every event.
  The store keeps that rule only conditionally, and the model proves exactly the conditional forms:
  - delete and cancel always keep it;
  - add keeps it when the new capacity is not negative (the store itself does no check);
  - RSVP keeps it when ids are unique (with a reused id, the `map` also appends the user to a later duplicate that may be full).
  `updateEvent` can lower the capacity below the current attendance, and `UpdateCanBreakCapacity` exhibits such an update.
- **Patches.** A key that is absent from the `Partial<Event>` patch is `None`.
- **Parameters for the environment.** The id and creation time that `addEvent` takes from the clock are parameters.
  So are the "now" of the home page and the answer to the delete confirmation.
  The signed-in session is a `Session` value.
- **Dates** are integer millisecond timestamps.

## Model

| member | source | states |
|---|---|---|
| `EventTypes.SignedIn` | frontend/src/components/EventCard.tsx:26 | someone is signed in: authenticated with a user present, the negation of the sign-in guard (also Eventdetail.tsx:42) |
| `Seqs.Filter` | frontend/src/contexts/EventContext.tsx:89 | a filter keeps exactly the elements satisfying the predicate, with their multiplicity and in their original order |
| `EventContext.FirstIndex` | frontend/src/contexts/EventContext.tsx:93 | the position found has the id and no earlier event has it; there is no position exactly when no event has the id |
| `EventContext.Find` | frontend/src/contexts/EventContext.tsx:93-94 | `find` returns nothing exactly when no event has the id; otherwise it returns the first listed event with that id |
| `EventContext.FirstIsOnly` | frontend/src/contexts/EventContext.tsx:92-110 | when ids are unique, the event `find` picks is the only one that `map` changes |
| `EventContext.MapWhereId` | frontend/src/contexts/EventContext.tsx:106-110 | mapping by id keeps the length; each event with the id is transformed and every other event is kept |
| `EventContext.MapKeepsFirstIndex` | frontend/src/contexts/EventContext.tsx:106-110 | a per-id map that keeps ids leaves the result of a later `find` at the same position |
| `EventContext.NewEvent` | frontend/src/contexts/EventContext.tsx:73-78 | a new event carries the caller's eight fields, the given id and creation time, and no attendees |
| `EventContext.Added` | frontend/src/contexts/EventContext.tsx:79 | adding appends the new event after all existing events, which are unchanged |
| `EventContext.AddThenFind` | frontend/src/contexts/EventContext.tsx:72-93 | after adding with an unused id, `find` by that id returns the new event at the last position |
| `EventContext.AddThenDelete` | frontend/src/contexts/EventContext.tsx:72-90 | deleting the id just added with an unused id restores the previous list |
| `EventContext.AddKeepsInvariants` | frontend/src/contexts/EventContext.tsx:72-80 | adding keeps ids unique when the new id is unused; it keeps every event within capacity when the new capacity is not negative |
| `EventContext.Merge` | frontend/src/contexts/EventContext.tsx:84 | each field of `{...event, ...patch}` is the patch's value when the patch has the key, and the event's value otherwise |
| `EventContext.MergeLaws` | frontend/src/contexts/EventContext.tsx:84 | an empty patch changes nothing; applying the same patch twice is applying it once |
| `EventContext.Updated` | frontend/src/contexts/EventContext.tsx:82-86 | an update keeps the length and the events with other ids, and merges the patch into every event with the id |
| `EventContext.UpdateIdempotent` | frontend/src/contexts/EventContext.tsx:82-86 | repeating the same update changes nothing more |
| `EventContext.UpdateKeepsUniqueIds` | frontend/src/contexts/EventContext.tsx:82-86 | a patch that does not set `id` keeps ids unique |
| `EventContext.UpdateCanBreakCapacity` | frontend/src/contexts/EventContext.tsx:82-86 | an update that lowers the capacity of a full event leaves more attendees than capacity |
| `EventContext.Deleted` | frontend/src/contexts/EventContext.tsx:88-90 | after a delete no event has the id; every event with another id is kept, with its multiplicity and in order |
| `EventContext.DeleteKeepsInvariants` | frontend/src/contexts/EventContext.tsx:88-90 | deleting keeps ids unique and every event within capacity |
| `EventContext.CanRsvp` | frontend/src/contexts/EventContext.tsx:93-104 | the guard of `rsvpEvent`: the first event with the id exists, is not full and does not list the user (characterised by `RsvpRefusals`) |
| `EventContext.RsvpRefusals` | frontend/src/contexts/EventContext.tsx:92-104 | an RSVP is refused for an unknown id, for a full first match and for a user the first match already lists; it is accepted exactly when the first match exists, has room and does not list the user |
| `EventContext.AddAttendee` | frontend/src/contexts/EventContext.tsx:108 | only the attendees change; the user is appended after the existing attendees, which keep their order |
| `EventContext.WithAttendeeAdded` | frontend/src/contexts/EventContext.tsx:106-110 | an accepted RSVP keeps ids and other events, and appends the user to the attendees of each event with the id |
| `EventContext.RsvpKeepsTargetConsistent` | frontend/src/contexts/EventContext.tsx:97-110 | an accepted RSVP grows the found event's attendance by one and keeps it within capacity and free of duplicates |
| `EventContext.RsvpKeepsInvariants` | frontend/src/contexts/EventContext.tsx:92-111 | with unique ids, an accepted RSVP keeps ids unique and every event within capacity |
| `EventContext.RsvpThenFind` | frontend/src/contexts/EventContext.tsx:106-111 | after an accepted RSVP, the event `find` returns lists the user |
| `EventContext.WithoutAttendee` | frontend/src/contexts/EventContext.tsx:114-120 | a cancel keeps ids and other events, and removes every occurrence of the user from each event with the id |
| `EventContext.RemoveAttendee` | frontend/src/contexts/EventContext.tsx:117 | only the attendees change; the user no longer occurs, every other attendee keeps its multiplicity and its order |
| `EventContext.CancelRemovesUser` | frontend/src/contexts/EventContext.tsx:117 | after a cancel the user is no longer listed by the event, and every other attendee is kept |
| `EventContext.CancelUnknownId` | frontend/src/contexts/EventContext.tsx:114-120 | cancelling for an unknown id changes nothing |
| `EventContext.CancelIdempotent` | frontend/src/contexts/EventContext.tsx:114-120 | cancelling twice is cancelling once |
| `EventContext.CancelKeepsInvariants` | frontend/src/contexts/EventContext.tsx:114-120 | cancelling keeps ids unique and every event within capacity |
| `EventContext.CancelThenFind` | frontend/src/contexts/EventContext.tsx:114-120 | after a cancel, the event `find` returns does not list the user |
| `EventContext.RsvpThenCancel` | frontend/src/contexts/EventContext.tsx:102-120 | when no event with the id lists the user, rsvp-then-cancel restores the list exactly |
| `EventContext.RsvpThenCancelRestores` | frontend/src/contexts/EventContext.tsx:92-120 | with unique ids, an accepted RSVP followed by a cancel restores the list exactly |
| `EventContext.SampleEvents` | frontend/src/contexts/EventContext.tsx:15-55 | the three sample events with their ids, titles, dates (UTC-midnight timestamps), times, locations, capacities, attendees, images and creators |
| `EventContext.SampleEventsConsistent` | frontend/src/contexts/EventContext.tsx:15-55 | the three sample events have distinct ids, and each is within capacity with no duplicate attendee |
| `EventContext.EventStore.constructor` | frontend/src/contexts/EventContext.tsx:58-65 | the store starts with the given list (the saved list, or the samples) |
| `EventContext.EventStore.SaveEvents` | frontend/src/contexts/EventContext.tsx:67-70 | saving replaces the list |
| `EventContext.EventStore.AddEvent` | frontend/src/contexts/EventContext.tsx:72-80 | the new list is the old one with the new event appended; the two invariants are kept under the conditions above |
| `EventContext.EventStore.UpdateEvent` | frontend/src/contexts/EventContext.tsx:82-86 | the new list is the patched old list; unique ids are kept when the patch does not set `id` |
| `EventContext.EventStore.DeleteEvent` | frontend/src/contexts/EventContext.tsx:88-90 | the new list is the old list without the id; both invariants are kept |
| `EventContext.EventStore.RsvpEvent` | frontend/src/contexts/EventContext.tsx:92-112 | returns true exactly when the first event with the id exists, has room and does not list the user; on false nothing changes, on true the user is appended; unique ids and (with unique ids) capacity are kept |
| `EventContext.EventStore.CancelRsvp` | frontend/src/contexts/EventContext.tsx:114-120 | the new list is the old list with the user removed from events with the id; both invariants are kept |
| `EventCard.IsAttending` | frontend/src/components/EventCard.tsx:20 | a user is present and listed among the attendees; never when no user is present, whatever `isAuthenticated` says (also used for frontend/src/pages/Eventdetail.tsx:36) |
| `EventCard.IsFull` | frontend/src/components/EventCard.tsx:21 | attendance has reached or passed capacity (also used for Eventdetail.tsx:37) |
| `EventCard.SpotsLeft` | frontend/src/components/EventCard.tsx:22 | capacity minus attendance, negative when over capacity (also used for Eventdetail.tsx:39) |
| `EventCard.IsCreator` | frontend/src/components/EventCard.tsx:23 | a user is present and created the event; never when no user is present (also used for Eventdetail.tsx:38) |
| `EventCard.PredicatesMatchStoreGuard` | frontend/src/components/EventCard.tsx:20-23 | for a listed event, "full" means no spots left, and the store accepts an RSVP exactly when the card sees it neither full nor attended |
| `EventCard.StatusBadge` | frontend/src/components/EventCard.tsx:71-79 | "Sold Out" exactly when full; "N spots left" exactly when not full with at most 5 left, N being 1 to 5; no badge exactly when more than 5 are left |
| `EventCard.CardButton` | frontend/src/components/EventCard.tsx:124-141 | the button exists exactly when actions are shown to a non-creator; it reads "Cancel RSVP" when attending, "Full" when full and not attending, "RSVP Now" otherwise; it is disabled exactly when it reads "Full" |
| `EventCard.CreatorHasNoButton` | frontend/src/components/EventCard.tsx:131 | the event's creator never gets an RSVP button |
| `EventCard.HandleRsvp` | frontend/src/components/EventCard.tsx:25-56 | signed out: a sign-in prompt and no change; attending: cancel and "RSVP Cancelled"; otherwise rsvp, then "RSVP Confirmed" or "Event Full" according to the store's answer |
| `EventCard.RsvpToggles` | frontend/src/components/EventCard.tsx:35-55 | a click while attending leaves the user unlisted; a click on an enabled "RSVP Now" is accepted and lists the user |
| `EventDetail.StatusOf` | frontend/src/pages/Eventdetail.tsx:117-125 | "Sold Out" exactly when full; otherwise the number of spots left, at least one |
| `EventDetail.ActionOf` | frontend/src/pages/Eventdetail.tsx:213-237 | no action for the creator; a cancel button exactly when attending, never disabled; otherwise "Event Full" disabled when full, or "RSVP Now" enabled |
| `EventDetail.View` | frontend/src/pages/Eventdetail.tsx:20-39 | "not found" exactly when no event has the id; otherwise the page shows the first such event with its status, action and creator controls |
| `EventDetail.ControlsByAuthorship` | frontend/src/pages/Eventdetail.tsx:144-155 | the creator sees edit and delete and no RSVP action; anyone else sees an RSVP action and no edit or delete |
| `EventDetail.HandleRsvp` | frontend/src/pages/Eventdetail.tsx:41-73 | as on the card, and a signed-out click also redirects to the login route |
| `EventDetail.HandleDelete` | frontend/src/pages/Eventdetail.tsx:75-84 | a confirmed delete removes the event, raises "Event deleted" and goes home; an unconfirmed one changes nothing |
| `EventDetail.DeleteThenNotFound` | frontend/src/pages/Eventdetail.tsx:20-34 | after deleting an id, its detail page is "not found" |
| `EventDetail.AddThenView` | frontend/src/pages/Eventdetail.tsx:20 | after adding with an unused id, its detail page shows the new event |
| `Dashboard.CreatedByUser` | frontend/src/pages/Dashboard.tsx:20 | the event was created by the user present; never when there is no user, since `user?.id` is then undefined |
| `Dashboard.AttendedByUser` | frontend/src/pages/Dashboard.tsx:21 | the event lists the user present; never when there is no user |
| `Dashboard.MyEvents` | frontend/src/pages/Dashboard.tsx:20 | exactly the events the user created, in order; none when no user |
| `Dashboard.AttendingEvents` | frontend/src/pages/Dashboard.tsx:21 | exactly the events listing the user, in order; none when no user |
| `Dashboard.ReduceAttendees` | frontend/src/pages/Dashboard.tsx:68 | the `reduce` as a left fold from the accumulator over the attendee counts (related to the sum by `ReduceIsSum`) |
| `Dashboard.ReduceIsSum` | frontend/src/pages/Dashboard.tsx:68 | the `reduce` over attendee counts equals the sum of attendee counts |
| `Dashboard.SumOfFilterAtMost` | frontend/src/pages/Dashboard.tsx:68 | the attendees of a filtered list never outnumber those of the whole list |
| `Dashboard.View` | frontend/src/pages/Dashboard.tsx:15-78 | redirects exactly when not authenticated; otherwise the four counts are the two filter lengths, the created events' attendee total and the store size, each bounded by the store |
| `IndexPage.LowerChar` | frontend/src/pages/Index.tsx:19-20 | an ASCII upper-case letter becomes its lower-case letter; every other character is kept |
| `IndexPage.Lower` | frontend/src/pages/Index.tsx:19-20 | lower-casing keeps the length and maps each character |
| `IndexPage.LowerLaws` | frontend/src/pages/Index.tsx:19-20 | a lower-cased string has no upper-case letter; lower-casing twice is lower-casing once |
| `IndexPage.Includes` | frontend/src/pages/Index.tsx:19-20 | `includes`, trying each start position from the left (characterised by `IncludesSpec`) |
| `IndexPage.IncludesSpec` | frontend/src/pages/Index.tsx:19-20 | `includes` holds exactly when the query occurs at some position |
| `IndexPage.IncludesEmpty` | frontend/src/pages/Index.tsx:19 | every string includes the empty query |
| `IndexPage.IsUpcoming` | frontend/src/pages/Index.tsx:17 | the event's date is now or later |
| `IndexPage.MatchesSearch` | frontend/src/pages/Index.tsx:18-21 | the lower-cased title or the lower-cased location includes the lower-cased query (characterised by `MatchesSearchSpec`) |
| `IndexPage.MatchesSearchSpec` | frontend/src/pages/Index.tsx:18-21 | an event matches exactly when the lower-cased query occurs in its lower-cased title or location |
| `IndexPage.Insert` | frontend/src/pages/Index.tsx:22 | inserting into the sorted list adds exactly that one event |
| `IndexPage.InsertSorted` | frontend/src/pages/Index.tsx:22 | inserting into a date-sorted list keeps it sorted |
| `IndexPage.SortByDate` | frontend/src/pages/Index.tsx:22 | the sorted list is ordered by date and is a permutation of its input |
| `IndexPage.UpcomingEvents` | frontend/src/pages/Index.tsx:16-22 | the list is sorted by date and holds exactly the events dated now or later that match the search, with their multiplicity |
| `IndexPage.UpcomingWithinStore` | frontend/src/pages/Index.tsx:16-22 | the upcoming list draws only on the store, with no event repeated beyond its count there, and no event is in the past |
| `IndexPage.UpcomingMembers` | frontend/src/pages/Index.tsx:17-21 | an event is shown exactly when it is listed, not in the past, and matches the search |
| `IndexPage.EmptyQueryKeepsAllUpcoming` | frontend/src/pages/Index.tsx:18-21 | an empty search shows every upcoming event |
| `IndexPage.SearchIgnoresQueryCase` | frontend/src/pages/Index.tsx:18-21 | a query and its lower-cased form show the same list |
| `IndexPage.NatToString` | frontend/src/pages/Index.tsx:112 | the decimal digits of the count, most significant first (characterised by `NatToStringRoundTrip`) |
| `IndexPage.NatToStringRoundTrip` | frontend/src/pages/Index.tsx:112 | the decimal rendering of a count is a non-empty digit string that reads back as the count |
| `IndexPage.CountLabel` | frontend/src/pages/Index.tsx:110-114 | no label for zero; "1 event found" for one; "N events found" for more, N written in decimal |

## Left out

- Persistence: reading and writing `localStorage` and reviving dates from JSON are I/O. The store starts from a given list, and `SaveEvents` only replaces it.
- The clock: `Date.now()`, `new Date()` and the home page's "now" are parameters. Two events added in the same millisecond would share an id, which is why the id is treated as possibly reused.
- The backend (`backend/`): its routes, models and server are not part of this model. The frontend never calls them for events.
- `frontend/src/contexts/AuthContext.tsx` is not part of this model. A `Session` value stands for what the pages read from it.
- Create and edit forms (`CreateEvent.tsx`, `EditEvent.tsx`): form state, `parseInt` of the capacity and the default image URL are not modelled. Only the `EventData` and patch they pass to the store are.
- JavaScript numbers: capacity and attendance are unbounded integers. A `NaN` capacity or an invalid date is not modelled.
- Attendance percentages are floating point and are not modelled. This covers the progress-bar width on the card (frontend/src/components/EventCard.tsx:120), and the rounded percentage and bar width on the detail page (frontend/src/pages/Eventdetail.tsx:196 and :201).
- Presentation: date formatting, toast texts and variants, button styles, icons, links and empty-state messages are rendering detail.
- Share on the detail page: `handleShare` writes to the clipboard, which is I/O.
- Navbar and Login pages: not part of the store or its decision rules.
- `IndexPage.Lower`: lowers ASCII letters only, because JavaScript's full Unicode `toLowerCase` has no counterpart here.
- Patches: a patch key present with the value `undefined` is treated like an absent key.
- `IndexPage.SortByDate`: the sort keeps equal dates in input order, as JavaScript's stable sort does, but that stability is not stated.
- Concurrency: the read-then-write RSVP check has no atomicity. The model runs every callback to completion against the current list.
- `useEvents` throws outside a provider; the model always has a store.
