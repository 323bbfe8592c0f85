/**
 The eight state-transition functions of `reducers.js` and their composition by
 `combineReducers`. Each reducer maps its slice of the store and an action to the next slice;
 every action is offered to every reducer.
 */
module Reducers {
  import opened Wrappers
  import opened Actions
  import opened PieceOrder
  import opened Indexing

  /** `{ loaded, items }`, the shape of every slice but the current user. */
  datatype Loadable<T> = Loadable(loaded: bool, items: T)

  /** `activities.items`: the empty array it starts as, or the whole last `GotActivities` payload. */
  datatype ActivityItems = NoActivities | Received(payload: ActivitiesPayload)

  /** `{ loaded: false }`, or `{ loaded: true, name, token }` once a user is known. */
  datatype CurrentUser = CurrentUser(loaded: bool, name: Option<string>, token: Option<string>)

  type AssignmentsState = Loadable<seq<Record>>
  type ActivitiesState = Loadable<ActivityItems>
  type AssignedPiecesState = Loadable<map<Slug, seq<Piece>>>
  type PiecesState = Loadable<seq<Piece>>
  type EnrollmentsState = Loadable<seq<Enrollment>>
  type RosterState = Loadable<map<Option<Id>, Enrollment>>
  type InstrumentsState = Loadable<map<Id, Instrument>>

  // The default values of the reducers' `state` parameters. The roster and instrument
  // slices start with an empty array that is used as an empty dictionary.
  const InitialAssignments: AssignmentsState := Loadable(false, [])
  const InitialAssignedPieces: AssignedPiecesState := Loadable(false, map[])
  const InitialActivities: ActivitiesState := Loadable(false, NoActivities)
  const InitialPieces: PiecesState := Loadable(false, [])
  const InitialEnrollments: EnrollmentsState := Loadable(false, [])
  const InitialRoster: RosterState := Loadable(false, map[])
  const InitialCurrentUser: CurrentUser := CurrentUser(false, None, None)
  const InitialInstruments: InstrumentsState := Loadable(false, map[])

  function AssignmentsReducer(state: AssignmentsState, action: Action): (r: AssignmentsState)
    ensures action.GotAssignments? ==> r.loaded && r.items == action.assignments
    ensures !action.GotAssignments? ==> r == state
  {
    match action
    case GotAssignments(payload) => Loadable(true, payload)
    case _ => state
  }

  function AssignedPiecesReducer(state: AssignedPiecesState, action: Action): (r: AssignedPiecesState)
    ensures action.GotActivities? ==>
      var slug, activities := action.activitiesPayload.slug, action.activitiesPayload.activities;
      && r.loaded == state.loaded
      && r.items.Keys == state.items.Keys + {slug}
      && r.items[slug] == AssignedPieces(activities)
      && SortedBy(ByName, r.items[slug])
      && (forall k :: Count(r.items[slug], k) == if HasPieceId(activities, k) then 1 else 0)
      && (forall other :: other in state.items && other != slug ==> r.items[other] == state.items[other])
    ensures !action.GotActivities? ==> r == state
  {
    match action
    case GotActivities(payload) =>
      Loadable(state.loaded, state.items[payload.slug := AssignedPieces(payload.activities)])
    case _ => state
  }

  function ActivitiesReducer(state: ActivitiesState, action: Action): (r: ActivitiesState)
    ensures action.GotActivities? ==> r.loaded && r.items == Received(action.activitiesPayload)
    ensures !action.GotActivities? ==> r == state
  {
    match action
    case GotActivities(payload) => Loadable(true, Received(payload))
    case _ => state
  }

  function PiecesReducer(state: PiecesState, action: Action): (r: PiecesState)
    ensures action.GotPieces? ==> r.loaded && r.items == action.pieces
    ensures !action.GotPieces? ==> r == state
  {
    match action
    case GotPieces(payload) => Loadable(true, payload)
    case _ => state
  }

  function EnrollmentsReducer(state: EnrollmentsState, action: Action): (r: EnrollmentsState)
    ensures action.GotEnrollments? ==> r.loaded && r.items == action.enrollments
    ensures !action.GotEnrollments? ==> r == state
  {
    match action
    case AddedRoster(_) => state
    case GotEnrollments(payload) => Loadable(true, payload)
    case _ => state
  }

  /** `item.id`, the dictionary key of a roster entry; `None` is JavaScript's `undefined` key. */
  function EnrollmentKey(e: Enrollment): Option<Id>
  {
    e.id
  }

  /**
   A copy of `items` whose entry under `k` is a copy of the old entry with `instrument` replaced.
   Spreading a missing entry contributes no properties, so an unknown key gets an entry holding
   only the instrument.
   */
  function SetInstrument(items: map<Option<Id>, Enrollment>, k: Option<Id>, instrument: Instrument)
    : (r: map<Option<Id>, Enrollment>)
    ensures r.Keys == items.Keys + {k}
    ensures r[k].instrument == Some(instrument)
    ensures k in items ==> r[k].id == items[k].id && r[k].attrs == items[k].attrs
    ensures k !in items ==> r[k] == Enrollment(None, Some(instrument), map[])
    ensures forall j :: j in items && j != k ==> r[j] == items[j]
  {
    var previous := if k in items then items[k] else Enrollment(None, None, map[]);
    items[k := previous.(instrument := Some(instrument))]
  }

  function RosterReducer(state: RosterState, action: Action): (r: RosterState)
    ensures action.GotRoster? ==>
      var payload := action.roster;
      && r.loaded
      && r.items.Keys == (set i | 0 <= i < |payload| :: payload[i].id)
      && (forall i :: 0 <= i < |payload| && LastWithKey(payload, EnrollmentKey, i) ==>
            r.items[payload[i].id] == payload[i])
    ensures action.UpdatedEnrollmentInstrument? ==>
      var k, instrument := action.enrollment.id, action.instrument;
      && r.loaded == state.loaded
      && r.items.Keys == state.items.Keys + {k}
      && r.items[k].instrument == Some(instrument)
      && (k in state.items ==> r.items[k].id == state.items[k].id && r.items[k].attrs == state.items[k].attrs)
      && (k !in state.items ==> r.items[k] == Enrollment(None, Some(instrument), map[]))
      && (forall j :: j in state.items && j != k ==> r.items[j] == state.items[j])
    ensures !(action.GotRoster? || action.UpdatedEnrollmentInstrument?) ==> r == state
  {
    match action
    case GotRoster(payload) =>
      IndexByCorrect(payload, EnrollmentKey);
      Loadable(true, IndexBy(payload, EnrollmentKey))
    case UpdatedEnrollmentInstrument(enrollment, instrument) =>
      Loadable(state.loaded, SetInstrument(state.items, enrollment.id, instrument))
    case _ => state
  }

  function CurrentUserReducer(state: CurrentUser, action: Action): (r: CurrentUser)
    ensures action.HaveUser? ==>
      r.loaded && r.name == Some(action.user.name) && r.token == Some(action.token)
    ensures action.LoggedOut? ==> !r.loaded && r.name.None? && r.token.None?
    ensures !(action.HaveUser? || action.LoggedOut?) ==> r == state
  {
    match action
    case HaveUser(user, token) => CurrentUser(true, Some(user.name), Some(token))
    case LoggedOut => CurrentUser(false, None, None)
    case _ => state
  }

  /** `instrument.id`, the dictionary key of an instrument. */
  function InstrumentKey(i: Instrument): Id
  {
    i.id
  }

  function InstrumentsReducer(state: InstrumentsState, action: Action): (r: InstrumentsState)
    ensures action.GotInstruments? ==>
      var payload := action.instruments;
      && r.loaded
      && r.items.Keys == (set i | 0 <= i < |payload| :: payload[i].id)
      && (forall k :: k in r.items ==> r.items[k].id == k)
      && (forall i :: 0 <= i < |payload| && LastWithKey(payload, InstrumentKey, i) ==>
            r.items[payload[i].id] == payload[i])
    ensures !action.GotInstruments? ==> r == state
  {
    match action
    case GotInstruments(payload) =>
      IndexByCorrect(payload, InstrumentKey);
      IndexByValues(payload, InstrumentKey);
      Loadable(true, IndexBy(payload, InstrumentKey))
    case _ => state
  }

  /** The store's state: one field per entry of the object given to `combineReducers`. */
  datatype RootState = RootState(
    assignments: AssignmentsState,
    activities: ActivitiesState,
    assignedPieces: AssignedPiecesState,
    pieces: PiecesState,
    enrollments: EnrollmentsState,
    instruments: InstrumentsState,
    roster: RosterState,
    currentUser: CurrentUser)

  const InitialState: RootState := RootState(
    InitialAssignments, InitialActivities, InitialAssignedPieces, InitialPieces,
    InitialEnrollments, InitialInstruments, InitialRoster, InitialCurrentUser)

  /** The combined reducer: every slice is stepped by its own reducer on the same action. */
  function Combined(state: RootState, action: Action): (r: RootState)
    ensures action.Other? ==> r == state
    ensures !action.GotAssignments? ==> r.assignments == state.assignments
    ensures !action.GotActivities? ==> r.activities == state.activities && r.assignedPieces == state.assignedPieces
    ensures !action.GotPieces? ==> r.pieces == state.pieces
    ensures !action.GotEnrollments? ==> r.enrollments == state.enrollments
    ensures !action.GotInstruments? ==> r.instruments == state.instruments
    ensures !(action.GotRoster? || action.UpdatedEnrollmentInstrument?) ==> r.roster == state.roster
    ensures !(action.HaveUser? || action.LoggedOut?) ==> r.currentUser == state.currentUser
  {
    RootState(
      AssignmentsReducer(state.assignments, action),
      ActivitiesReducer(state.activities, action),
      AssignedPiecesReducer(state.assignedPieces, action),
      PiecesReducer(state.pieces, action),
      EnrollmentsReducer(state.enrollments, action),
      InstrumentsReducer(state.instruments, action),
      RosterReducer(state.roster, action),
      CurrentUserReducer(state.currentUser, action))
  }

  /** Dispatching `actions` in order, starting from `state`. */
  function Fold<S>(step: (S, Action) -> S, state: S, actions: seq<Action>): S
  {
    if actions == [] then state else Fold(step, step(state, actions[0]), actions[1..])
  }

  /** Over any run, each slice of the store evolves by its own reducer alone. */
  lemma {:induction false} SlicesEvolveIndependently(state: RootState, actions: seq<Action>)
    ensures var r := Fold(Combined, state, actions);
      && r.assignments == Fold(AssignmentsReducer, state.assignments, actions)
      && r.activities == Fold(ActivitiesReducer, state.activities, actions)
      && r.assignedPieces == Fold(AssignedPiecesReducer, state.assignedPieces, actions)
      && r.pieces == Fold(PiecesReducer, state.pieces, actions)
      && r.enrollments == Fold(EnrollmentsReducer, state.enrollments, actions)
      && r.instruments == Fold(InstrumentsReducer, state.instruments, actions)
      && r.roster == Fold(RosterReducer, state.roster, actions)
      && r.currentUser == Fold(CurrentUserReducer, state.currentUser, actions)
    decreases |actions|
  {
    if actions != [] {
      SlicesEvolveIndependently(Combined(state, actions[0]), actions[1..]);
    }
  }

  /** Dispatching the same action twice leaves the store as dispatching it once. */
  lemma CombinedIdempotent(state: RootState, action: Action)
    ensures Combined(Combined(state, action), action) == Combined(state, action)
  {
    match action {
      case GotActivities(payload) =>
        var once := Combined(state, action).assignedPieces.items;
        assert once[payload.slug := AssignedPieces(payload.activities)] == once;
      case GotRoster(_) =>
      case UpdatedEnrollmentInstrument(enrollment, instrument) =>
        var once := Combined(state, action).roster.items;
        assert SetInstrument(once, enrollment.id, instrument) == once;
      case GotInstruments(_) =>
      case _ =>
    }
  }

  /** No `HaveUser` or `LoggedOut` action comes after position `i`. */
  ghost predicate NoSessionActionAfter(actions: seq<Action>, i: nat)
  {
    forall j :: i < j < |actions| ==> !(actions[j].HaveUser? || actions[j].LoggedOut?)
  }

  /** The last `HaveUser` or `LoggedOut` action of a run, if there is one. */
  function LastSessionAction(actions: seq<Action>): (r: Option<Action>)
    ensures r.Some? ==> (r.value.HaveUser? || r.value.LoggedOut?) && r.value in actions
    ensures r.Some? ==> exists i :: 0 <= i < |actions| && actions[i] == r.value && NoSessionActionAfter(actions, i)
    ensures r.None? ==> forall i :: 0 <= i < |actions| ==> !(actions[i].HaveUser? || actions[i].LoggedOut?)
  {
    if actions == [] then None
    else
      match LastSessionAction(actions[1..])
      case Some(a) => Some(a)
      case None => if actions[0].HaveUser? || actions[0].LoggedOut? then Some(actions[0]) else None
  }

  /**
   The current user is a two-state machine: after any run it is the user and token of the
   last `HaveUser`, or logged out if the last session action was `LoggedOut`, or unchanged.
   */
  lemma {:induction false} CurrentUserRun(state: CurrentUser, actions: seq<Action>)
    ensures var r := Fold(CurrentUserReducer, state, actions);
      match LastSessionAction(actions)
      case None => r == state
      case Some(HaveUser(user, token)) => r == CurrentUser(true, Some(user.name), Some(token))
      case Some(_) => r == InitialCurrentUser
    decreases |actions|
  {
    if actions != [] {
      CurrentUserRun(CurrentUserReducer(state, actions[0]), actions[1..]);
    }
  }

  /** `assignedPiecesReducer` spreads the old state, so its `loaded` flag never changes. */
  lemma {:induction false} AssignedPiecesLoadedNeverChanges(state: AssignedPiecesState, actions: seq<Action>)
    ensures Fold(AssignedPiecesReducer, state, actions).loaded == state.loaded
    decreases |actions|
  {
    if actions != [] {
      AssignedPiecesLoadedNeverChanges(AssignedPiecesReducer(state, actions[0]), actions[1..]);
    }
  }

  /** From the initial store, `assignedPieces.loaded` stays false whatever is dispatched. */
  lemma AssignedPiecesNeverLoaded(actions: seq<Action>)
    ensures !Fold(Combined, InitialState, actions).assignedPieces.loaded
  {
    SlicesEvolveIndependently(InitialState, actions);
    AssignedPiecesLoadedNeverChanges(InitialAssignedPieces, actions);
  }
}
