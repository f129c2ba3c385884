/**
 * The decision rules of frontend/src/components/EventCard.tsx: the predicates
 * derived from an event and the signed-in user, the status badge, the RSVP
 * button, and the `handleRsvp` dispatch into the store.
 */
module EventCard {
  import opened EventTypes
  import opened EventContext

  /** `user ? event.attendees.includes(user.id) : false`. */
  predicate IsAttending(e: Event, user: Option<User>) {
    user.Some? && user.value.id in e.attendees
  }

  /** `event.attendees.length >= event.capacity`. */
  predicate IsFull(e: Event) {
    |e.attendees| >= e.capacity
  }

  /** `event.capacity - event.attendees.length`. */
  function SpotsLeft(e: Event): int {
    e.capacity - |e.attendees|
  }

  /** `user?.id === event.createdBy`: false when nobody is signed in. */
  predicate IsCreator(e: Event, user: Option<User>) {
    user.Some? && user.value.id == e.createdBy
  }

  /**
   * The card's predicates agree with the store's rsvp guard: for the event
   * the store finds under its id, an rsvp by a signed-in user goes through
   * exactly when the card shows it neither full nor attended by that user.
   */
  lemma PredicatesMatchStoreGuard(es: seq<Event>, e: Event, u: User)
    requires Find(es, e.id) == Some(e)
    ensures IsFull(e) <==> SpotsLeft(e) <= 0
    ensures CanRsvp(es, e.id, u.id) <==> !IsFull(e) && !IsAttending(e, Some(u))
  {
  }

  // ---------------------------------------------------------------------
  // Status badge (EventCard.tsx:71-79)

  datatype Badge = SoldOut | SpotsLeftBadge(spots: int) | NoBadge

  /** "Sold Out" when full, "N spots left" when at most five remain, otherwise nothing. */
  function StatusBadge(e: Event): (b: Badge)
    ensures b.SoldOut? <==> IsFull(e)
    ensures b.SpotsLeftBadge? <==> !IsFull(e) && SpotsLeft(e) <= 5
    ensures b.SpotsLeftBadge? ==> b.spots == SpotsLeft(e) && 1 <= b.spots <= 5
    ensures b.NoBadge? <==> SpotsLeft(e) > 5
  {
    if IsFull(e) then SoldOut
    else if SpotsLeft(e) <= 5 then SpotsLeftBadge(SpotsLeft(e))
    else NoBadge
  }

  // ---------------------------------------------------------------------
  // RSVP button (EventCard.tsx:124-141)

  datatype RsvpButton = RsvpButton(text: string, disabled: bool)

  const CancelLabel: string := "Cancel RSVP"
  const FullLabel: string := "Full"
  const RsvpLabel: string := "RSVP Now"

  /**
   * The RSVP button of a card, absent when actions are hidden and for the
   * event's creator. It is disabled only for a full event the user does not
   * attend, so an attendee can always cancel.
   */
  function CardButton(e: Event, user: Option<User>, showActions: bool): (b: Option<RsvpButton>)
    ensures b.Some? <==> showActions && !IsCreator(e, user)
    ensures b.Some? ==> (b.value.disabled <==> IsFull(e) && !IsAttending(e, user))
    ensures b.Some? ==> (b.value.text == CancelLabel <==> IsAttending(e, user))
    ensures b.Some? ==> (b.value.text == FullLabel <==> IsFull(e) && !IsAttending(e, user))
    ensures b.Some? ==> (b.value.text == RsvpLabel <==> !IsFull(e) && !IsAttending(e, user))
    ensures b.Some? ==> (b.value.disabled <==> b.value.text == FullLabel)
  {
    if showActions && !IsCreator(e, user) then
      var text := if IsAttending(e, user) then CancelLabel
                   else if IsFull(e) then FullLabel
                   else RsvpLabel;
      Some(RsvpButton(text, IsFull(e) && !IsAttending(e, user)))
    else None
  }

  /** The creator of an event is never offered the RSVP button, whatever the event's state. */
  lemma CreatorHasNoButton(e: Event, u: User, showActions: bool)
    requires u.id == e.createdBy
    ensures CardButton(e, Some(u), showActions).None?
  {
  }

  // ---------------------------------------------------------------------
  // handleRsvp (EventCard.tsx:25-56)

  /**
   * The click on the card's RSVP button: prompts to sign in and changes
   * nothing when nobody is signed in; cancels when the card shows the user
   * attending; otherwise asks the store for an rsvp and reports its answer.
   */
  method HandleRsvp(store: EventStore, e: Event, session: Session) returns (notice: Notice)
    modifies store
    ensures !SignedIn(session) ==> notice == SignInPrompt && store.events == old(store.events)
    ensures SignedIn(session) && IsAttending(e, session.user) ==>
              notice == RsvpCancelled &&
              store.events == WithoutAttendee(old(store.events), e.id, session.user.value.id)
    ensures SignedIn(session) && !IsAttending(e, session.user) ==>
              var ok := CanRsvp(old(store.events), e.id, session.user.value.id);
              notice == (if ok then RsvpConfirmed else EventFullNotice) &&
              store.events == (if ok then WithAttendeeAdded(old(store.events), e.id, session.user.value.id)
                               else old(store.events))
  {
    if !session.isAuthenticated || session.user.None? {
      return SignInPrompt;
    }
    var user := session.user.value;
    if IsAttending(e, session.user) {
      store.CancelRsvp(e.id, user.id);
      notice := RsvpCancelled;
    } else {
      var success := store.RsvpEvent(e.id, user.id);
      if success {
        notice := RsvpConfirmed;
      } else {
        notice := EventFullNotice;
      }
    }
  }

  /**
   * handleRsvp toggles attendance of the event the store finds under the
   * card's id: cancelling leaves the user unlisted, and an rsvp from an
   * enabled "RSVP Now" button always succeeds and lists the user.
   */
  lemma RsvpToggles(es: seq<Event>, e: Event, u: User)
    requires Find(es, e.id) == Some(e)
    ensures IsAttending(e, Some(u)) ==>
              !IsAttending(Find(WithoutAttendee(es, e.id, u.id), e.id).value, Some(u))
    ensures CardButton(e, Some(u), true) == Some(RsvpButton(RsvpLabel, false)) ==>
              CanRsvp(es, e.id, u.id) &&
              IsAttending(Find(WithAttendeeAdded(es, e.id, u.id), e.id).value, Some(u))
  {
    if IsAttending(e, Some(u)) {
      CancelThenFind(es, e.id, u.id);
    }
    if CanRsvp(es, e.id, u.id) {
      RsvpThenFind(es, e.id, u.id);
    }
  }
}
