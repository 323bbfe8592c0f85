/**
 The records the reducers receive from the server and the actions dispatched to them.

 The action type constants live in a module that is not part of this model; each constant
 is a constructor of `Action` here, so that distinct constants are distinct tags, and every
 other action type the application dispatches is `Other(tag)`.
 */
module Actions {
  import opened Wrappers

  /** Server-side primary key. */
  type Id = int

  /** Identifier of an assignment group, the key of `assignedPieces.items`. */
  type Slug = string

  /** Properties of a server object that the reducers copy but never inspect. */
  type Attrs = map<string, string>

  /** A server object none of whose properties the reducers read. */
  datatype Record = Record(attrs: Attrs)

  datatype Piece = Piece(id: Id, name: string, attrs: Attrs)

  datatype Part = Part(piece: Piece, attrs: Attrs)

  datatype Activity = Activity(part: Part, attrs: Attrs)

  /** Payload of `GotActivities`: the activities of one assignment group. */
  datatype ActivitiesPayload = ActivitiesPayload(slug: Slug, activities: seq<Activity>, attrs: Attrs)

  datatype Instrument = Instrument(id: Id, name: string, attrs: Attrs)

  /**
   A roster entry. `id` and `instrument` are optional because an entry created by an
   instrument update for an unknown enrollment holds nothing but its instrument.
   */
  datatype Enrollment = Enrollment(id: Option<Id>, instrument: Option<Instrument>, attrs: Attrs)

  datatype User = User(name: string, attrs: Attrs)

  datatype Action =
    | GotAssignments(assignments: seq<Record>)
    | GotActivities(activitiesPayload: ActivitiesPayload)
    | GotPieces(pieces: seq<Piece>)
    | GotEnrollments(enrollments: seq<Enrollment>)
    | AddedRoster(added: Record)
    | GotRoster(roster: seq<Enrollment>)
    | UpdatedEnrollmentInstrument(enrollment: Enrollment, instrument: Instrument)
    | HaveUser(user: User, token: string)
    | LoggedOut
    | GotInstruments(instruments: seq<Instrument>)
    | Other(tag: string)
}
