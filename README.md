# Redux reducers of the CPR-Music front end, in Dafny

This project models the store of the application's Redux layer (`reducers.js`). The store has eight
slices: assignments, activities, assigned pieces, pieces, enrollments, instruments, roster and current
user. Each slice has a reducer, a deterministic step `(state, action) -> state`. `combineReducers`
offers every action to every reducer. The model states and proves what each step does to its slice.

- `Actions` (actions.dfy): the action tags as one datatype, each carrying its payload. It also holds
  the server records, modelled only through the properties the reducers read.
- `PieceOrder` (piece_order.dfy): the list computation of `assignedPiecesReducer`. It projects the piece
  of each activity's part, sorts by id, keeps an element only when its id differs from the previous
  element's id, and sorts by name. The result holds every distinct piece id of the activities exactly
  once, each entry is one of the activities' pieces, and the list is ordered by name.
- `Indexing` (index_by.dfy): the `forEach` loop that fills a dictionary keyed by `id`. It is written as
  a method with a loop invariant and proved equal to a fold, `IndexBy`. The keys of `IndexBy` are
  exactly the items' ids, and each id maps to the last item that carries it.
- `Reducers` (reducers.dfy): the eight reducers, their initial states, and the combined reducer
  `Combined`. `Fold` dispatches a sequence of actions. Lemmas about whole runs show that:
  - each slice evolves by its own reducer alone;
  - dispatching an action twice has the same effect as dispatching it once;
  - the current user follows the last `HaveUser` or `LoggedOut` action;
  - `assignedPieces.loaded` never changes. That reducer spreads the old state and never sets the flag,
    so from the initial store it stays `false`.

`activitiesReducer` stores the whole `GotActivities` payload, both `slug` and `activities`, as `items`.
Before that, `items` is the empty array of the initial state. `ActivityItems` keeps these two forms
apart. A roster entry created by an instrument update for an unknown key holds only `instrument`. This
is why `Enrollment.id` is optional, and why roster keys are `Option<Id>`: `None` is JavaScript's
`undefined` key.

Where the source's computations live in the model:
- `Reducers.InitialAssignments`, `InitialAssignedPieces`, `InitialActivities`, `InitialPieces`,
  `InitialEnrollments`, `InitialRoster`, `InitialCurrentUser` and `InitialInstruments` are the default
  `state` values (reducers.js:4-7, 21-24, 42-45, 56, 67, 81, 106, 124). `InitialState` collects them into
  one store, and `AssignedPiecesNeverLoaded` starts from it.
- `PieceOrder.PiecesOf` is the `map` over the activities (reducers.js:29).
- `PieceOrder.SortBy`, with its step `Insert`, stands for both calls to `sort` (reducers.js:30, 34).
  `SortKey` picks the comparator: `ById` or `ByName`.
- `PieceOrder.DropAdjacentDuplicates`, with its step `KeepAfter`, is the `filter` (reducers.js:31-33).
- `Indexing.IndexBy` is the dictionary that the `forEach` loops build (reducers.js:87-88, 130-131).
  `Indexing.CollectById` is the loop itself.
- `Reducers.SetInstrument` is the nested spread of the instrument update (reducers.js:92-101).

## Model

| member | source | states |
|---|---|---|
| `PieceOrder.NameLeTotal` | reducers.js:34 | any two names are ordered one way or the other by the string comparison |
| `PieceOrder.NameLeTransitive` | reducers.js:34 | the string order is transitive |
| `PieceOrder.LeTotal` | reducers.js:30-34 | both comparators (by id, by name) are total |
| `PieceOrder.LeTransitive` | reducers.js:30-34 | both comparators are transitive |
| `PieceOrder.InsertCorrect` | reducers.js:30-34 | inserting into a sorted list keeps it sorted, adds exactly that element and adds one to the count of its id |
| `PieceOrder.SortByCorrect` | reducers.js:30-34 | the sort returns a permutation of its input, ordered by the key, with every id count unchanged |
| `PieceOrder.CountPresent` | reducers.js:32 | an id has a positive count exactly when some element carries it |
| `PieceOrder.DropAdjacentDuplicatesCorrect` | reducers.js:31-33 | on a list sorted by id, the filter leaves each id present exactly once and removes every absent one; every kept element comes from the input |
| `PieceOrder.PiecesOf` | reducers.js:29 | the projection has one piece per activity, the piece of that activity's part, in the same order |
| `PieceOrder.AssignedPieces` | reducers.js:29-34 | the stored list is ordered by name, holds each piece id of the activities exactly once and no other, and each entry is one of the activities' pieces |
| `Indexing.IndexByCorrect` | reducers.js:88 | the dictionary's keys are exactly the items' keys, and each key maps to the last item carrying it |
| `Indexing.IndexByValues` | reducers.js:131 | each stored item carries the key it is stored under and comes from the list |
| `Indexing.CollectById` | reducers.js:87-88 | the `forEach` loop computes the fold `IndexBy`: same keys, last item per key wins |
| `Reducers.AssignmentsReducer` | reducers.js:9-19 | `GotAssignments` gives `loaded` true and `items` equal to the payload, whatever the prior state; any other action leaves the state unchanged |
| `Reducers.AssignedPiecesReducer` | reducers.js:26-40 | `GotActivities` stores, under the payload's slug, a name-ordered list with each piece id once. `loaded` and every other slug's entry are untouched. Any other action is the identity |
| `Reducers.ActivitiesReducer` | reducers.js:47-54 | `GotActivities` gives `loaded` true and the whole payload as `items`; any other action is the identity |
| `Reducers.PiecesReducer` | reducers.js:58-65 | `GotPieces` gives `loaded` true and the payload as `items`; any other action is the identity |
| `Reducers.EnrollmentsReducer` | reducers.js:69-79 | `GotEnrollments` gives `loaded` true and the payload as `items`; `AddedRoster` and every other action leave the state unchanged |
| `Reducers.SetInstrument` | reducers.js:92-101 | the entry under the enrollment's id gets the new instrument and keeps its id and other fields. An absent key gets an entry holding only the instrument. All other entries are unchanged |
| `Reducers.RosterReducer` | reducers.js:83-104 | `GotRoster` gives `loaded` true, keys exactly the payload ids, each mapped to the last payload item with that id. `UpdatedEnrollmentInstrument` updates one entry as `SetInstrument` states and keeps `loaded`. Other actions are the identity |
| `Reducers.CurrentUserReducer` | reducers.js:108-122 | `HaveUser` gives `loaded` true with the payload's user name and token; `LoggedOut` gives `loaded` false with no name and no token, whatever the prior state; other actions are the identity |
| `Reducers.InstrumentsReducer` | reducers.js:126-135 | `GotInstruments` gives `loaded` true, keys exactly the payload ids, each mapped to the last instrument with that id, which carries that id. Other actions are the identity |
| `Reducers.Combined` | reducers.js:138-150 | an action no reducer handles leaves the store unchanged. Each slice changes only under the actions its reducer handles |
| `Reducers.SlicesEvolveIndependently` | reducers.js:138-150 | over any sequence of actions, each slice of the combined store equals its own reducer run alone on that slice |
| `Reducers.CombinedIdempotent` | reducers.js:138-150 | dispatching the same action twice leaves the store as dispatching it once |
| `Reducers.LastSessionAction` | reducers.js:110-119 | the chosen action is a `HaveUser` or `LoggedOut` at some position of the run, and no such action comes after it. None is chosen only when the run has neither |
| `Reducers.CurrentUserRun` | reducers.js:108-122 | after any run, the current user is the user and token of the last `HaveUser`. It is the logged-out state if the last session action was `LoggedOut`, and unchanged if there was neither |
| `Reducers.AssignedPiecesLoadedNeverChanges` | reducers.js:37 | no run changes `assignedPieces.loaded` |
| `Reducers.AssignedPiecesNeverLoaded` | reducers.js:21-37 | from the initial store, `assignedPieces.loaded` is false after any run |

## Left out

- `components/daw/dawSimple.js` is not part of this model. It is a React component: state hooks,
  waveform plugin wiring, FFmpeg WebAssembly transcoding and DOM rendering, all UI and foreign library calls.
- The `console.log` calls are logging only and are omitted.
- `combineReducers` is modelled only as a record whose fields are stepped by their own reducers. Redux's
  internal initialisation action and its checks of reducer results are not modelled. Calling a reducer
  with an undefined state, which picks the default parameter, is covered by the `Initial*` constants.
- The action type constants are defined in a module outside this model. They are constructors of
  `Action`, and `Other(tag)` stands for every tag none of the reducers handles.
- The dictionary keys in JavaScript are the ids converted to strings. Ids are integers here, and two
  integers give the same key exactly when they are equal, so the keys are the ids themselves.
- JavaScript compares strings by UTF-16 code unit. `NameLe` compares Dafny characters, which is the same
  order except for characters outside the Basic Multilingual Plane.
- `null` and a missing property are both `None`. On a roster entry's `id` this merges two keys that
  JavaScript keeps apart: an item whose `id` is `null` and one whose `id` is missing land under the keys
  `"null"` and `"undefined"` (reducers.js:88, 96). Here both land under the one key `None`.
- Payload objects are modelled only through the properties the reducers read. Every other property is an
  opaque `Attrs` map that is copied unchanged.
- Payloads that make the source throw a `TypeError` are not representable, because every action carries a
  well-formed payload:
  - a `HaveUser` payload without `user` (`payload.user.name`, reducers.js:114);
  - a `GotActivities` payload without `activities`, or an activity whose `part` is null (reducers.js:29);
  - an activity whose `part` has no `piece`. `sort` moves `undefined` to the end without calling the
    comparator. The `filter` then reads the `id` of `undefined` and throws (reducers.js:32), unless that is
    the only piece, in which case the source stores `[undefined]`;
  - a `GotRoster` or `GotInstruments` payload that is not an array (reducers.js:88, 131);
  - an `UpdatedEnrollmentInstrument` payload without `enrollment` (reducers.js:96).
- `PieceOrder.AssignedPieces`: the source leaves two choices to the engine's `Array.prototype.sort`,
  whose comparators never return 0. One is which piece survives among those sharing an id; the other is
  the order of pieces sharing a name. The model fixes both as an insertion sort does. The contract
  promises only what every sorted permutation gives.
- The in-place sorting and reassignment of the local `pieces` array are modelled by the values that the
  local holds after each step. The array is local and never shared, so no aliasing is lost.
