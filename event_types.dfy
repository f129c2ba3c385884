/**
 * The records of frontend/src/types/event.ts and the signed-in session the
 * pages read from the authentication context.
 *
 * Dates are milliseconds since the Unix epoch (what `Date.getTime()` gives);
 * strings are sequences of characters.
 */
module EventTypes {

  datatype Option<T> = None | Some(value: T) {
    /** The patch's value for a key, or `default` (the event's own value) when the key is absent. */
    function GetOr(default: T): T {
      match this
      case Some(v) => v
      case None => default
    }
  }

  /** Milliseconds since 1970-01-01T00:00:00Z. */
  type Timestamp = int

  /** An event listing with its ordered list of attendee ids. */
  datatype Event = Event(
    id: string,
    title: string,
    description: string,
    date: Timestamp,
    time: string,
    location: string,
    capacity: int,
    attendees: seq<string>,
    imageUrl: string,
    createdBy: string,
    createdAt: Timestamp)

  /** The fields a caller of `addEvent` supplies: everything but id, createdAt and attendees. */
  datatype EventData = EventData(
    title: string,
    description: string,
    date: Timestamp,
    time: string,
    location: string,
    capacity: int,
    imageUrl: string,
    createdBy: string)

  /** A `Partial<Event>`: `None` stands for a key the object does not have. */
  datatype EventPatch = EventPatch(
    id: Option<string>,
    title: Option<string>,
    description: Option<string>,
    date: Option<Timestamp>,
    time: Option<string>,
    location: Option<string>,
    capacity: Option<int>,
    attendees: Option<seq<string>>,
    imageUrl: Option<string>,
    createdBy: Option<string>,
    createdAt: Option<Timestamp>)

  datatype User = User(id: string, name: string, email: string)

  /** What the pages read from the authentication context: `isAuthenticated` and `user`. */
  datatype Session = Session(isAuthenticated: bool, user: Option<User>)

  /** The toast notifications the pages raise after an action. */
  datatype Notice = SignInPrompt | RsvpCancelled | RsvpConfirmed | EventFullNotice | EventDeletedNotice

  /** The routes a page navigates to after an action. */
  datatype Route = HomeRoute | LoginRoute

  /** The guard `!isAuthenticated || !user` fails: someone is signed in. */
  predicate SignedIn(session: Session) {
    session.isAuthenticated && session.user.Some?
  }
}
