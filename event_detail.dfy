/**
 * The decision rules of frontend/src/pages/Eventdetail.tsx: the lookup of the
 * event named in the route, the status shown on it, which controls appear,
 * and the `handleRsvp` and `handleDelete` handlers.
 *
 * The page derives isAttending, isFull, isCreator and spotsLeft with the same
 * expressions as the event card, so it uses the card's predicates.
 */
module EventDetail {
  import opened EventTypes
  import opened EventContext
  import opened EventCard

  /** The status chip: "Sold Out", or else the spots-left count with no threshold. */
  datatype Status = SoldOutStatus | SpotsLeftStatus(spots: int)

  /** The big action button under the description. */
  datatype ActionButton = ActionButton(text: string, disabled: bool, cancelsRsvp: bool)

  const CancelText: string := "You're Attending \U{2013} Cancel RSVP"
  const EventFullText: string := "Event Full"
  const RsvpNowText: string := "RSVP Now"

  /** What the page renders: not found, or the event with its status and controls. */
  datatype Page =
    | NotFound
    | Detail(event: Event, status: Status, showEditDelete: bool,
             action: Option<ActionButton>, showCreatorNotice: bool)

  function StatusOf(e: Event): (s: Status)
    ensures s.SoldOutStatus? <==> IsFull(e)
    ensures s.SpotsLeftStatus? ==> s.spots == SpotsLeft(e) && s.spots >= 1
  {
    if IsFull(e) then SoldOutStatus else SpotsLeftStatus(SpotsLeft(e))
  }

  /**
   * The action button: none for the creator; for anyone else the cancel
   * button when attending (never disabled), otherwise the rsvp button,
   * disabled exactly when the event is full.
   */
  function ActionOf(e: Event, user: Option<User>): (a: Option<ActionButton>)
    ensures a.None? <==> IsCreator(e, user)
    ensures a.Some? ==> (a.value.cancelsRsvp <==> IsAttending(e, user))
    ensures a.Some? && a.value.cancelsRsvp ==> !a.value.disabled && a.value.text == CancelText
    ensures a.Some? && !a.value.cancelsRsvp ==>
              (a.value.disabled <==> IsFull(e)) &&
              a.value.text == (if IsFull(e) then EventFullText else RsvpNowText)
  {
    if IsCreator(e, user) then None
    else if IsAttending(e, user) then Some(ActionButton(CancelText, false, true))
    else Some(ActionButton(if IsFull(e) then EventFullText else RsvpNowText, IsFull(e), false))
  }

  /**
   * The page for route id `id`: not found when no event has the id;
   * otherwise the first event with the id, its status, and controls split by
   * authorship: the creator gets edit, delete and the creator notice and no
   * rsvp control, everyone else the reverse.
   */
  function View(events: seq<Event>, id: string, user: Option<User>): (p: Page)
    ensures p.NotFound? <==> IdUnused(events, id)
    ensures p.Detail? ==> Find(events, id) == Some(p.event)
    ensures p.Detail? ==> p.status == StatusOf(p.event)
    ensures p.Detail? ==> p.showEditDelete == IsCreator(p.event, user) && p.showCreatorNotice == IsCreator(p.event, user)
    ensures p.Detail? ==> (p.action.None? <==> p.showEditDelete)
    ensures p.Detail? ==> p.action == ActionOf(p.event, user)
  {
    match Find(events, id)
    case None => NotFound
    case Some(e) =>
      var creator := IsCreator(e, user);
      Detail(e, StatusOf(e), creator, ActionOf(e, user), creator)
  }

  /**
   * The split of controls by authorship: the creator sees edit and delete and
   * no rsvp control; anyone else sees an rsvp or cancel control and neither
   * edit nor delete.
   */
  lemma ControlsByAuthorship(events: seq<Event>, id: string, user: Option<User>)
    requires !IdUnused(events, id)
    ensures var p := View(events, id, user);
            p.Detail? &&
            (IsCreator(p.event, user) ==> p.showEditDelete && p.action.None?) &&
            (!IsCreator(p.event, user) ==> !p.showEditDelete && p.action.Some?)
  {
  }

  /**
   * The click on the action button: without a signed-in user, prompts,
   * redirects to login and changes nothing; otherwise toggles like the card,
   * cancelling when attending and reporting the rsvp answer otherwise.
   */
  method HandleRsvp(store: EventStore, e: Event, session: Session) returns (notice: Notice, redirect: Option<Route>)
    modifies store
    ensures !SignedIn(session) ==>
              notice == SignInPrompt && redirect == Some(LoginRoute) && store.events == old(store.events)
    ensures SignedIn(session) ==> redirect.None?
    ensures SignedIn(session) && IsAttending(e, session.user) ==>
              notice == RsvpCancelled &&
              store.events == WithoutAttendee(old(store.events), e.id, session.user.value.id)
    ensures SignedIn(session) && !IsAttending(e, session.user) ==>
              var ok := CanRsvp(old(store.events), e.id, session.user.value.id);
              notice == (if ok then RsvpConfirmed else EventFullNotice) &&
              store.events == (if ok then WithAttendeeAdded(old(store.events), e.id, session.user.value.id)
                               else old(store.events))
  {
    redirect := None;
    if !session.isAuthenticated || session.user.None? {
      return SignInPrompt, Some(LoginRoute);
    }
    var user := session.user.value;
    if IsAttending(e, session.user) {
      store.CancelRsvp(e.id, user.id);
      notice := RsvpCancelled;
    } else {
      var success := store.RsvpEvent(e.id, user.id);
      if success {
        notice := RsvpConfirmed;
      } else {
        notice := EventFullNotice;
      }
    }
  }

  /**
   * The click on delete; `confirmed` is the user's answer to the confirmation
   * dialog. Only an accepted confirmation deletes the event and goes home.
   */
  method HandleDelete(store: EventStore, e: Event, confirmed: bool) returns (notice: Option<Notice>, redirect: Option<Route>)
    modifies store
    ensures confirmed ==>
              store.events == Deleted(old(store.events), e.id) &&
              notice == Some(EventDeletedNotice) && redirect == Some(HomeRoute)
    ensures !confirmed ==> store.events == old(store.events) && notice.None? && redirect.None?
  {
    notice, redirect := None, None;
    if confirmed {
      store.DeleteEvent(e.id);
      notice, redirect := Some(EventDeletedNotice), Some(HomeRoute);
    }
  }

  /** After a confirmed delete the page for that id is the not-found page. */
  lemma DeleteThenNotFound(events: seq<Event>, id: string, user: Option<User>)
    ensures View(Deleted(events, id), id, user).NotFound?
  {
  }

  /** An event added under a fresh id has a detail page showing it. */
  lemma AddThenView(events: seq<Event>, data: EventData, id: string, createdAt: Timestamp, user: Option<User>)
    requires IdUnused(events, id)
    ensures View(Added(events, data, id, createdAt), id, user).Detail?
    ensures View(Added(events, data, id, createdAt), id, user).event == NewEvent(data, id, createdAt)
  {
    AddThenFind(events, data, id, createdAt);
  }
}
