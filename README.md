# ReSwiftUndo history transformer in Dafny

ReSwiftUndo wraps a ReSwift reducer so that its state gains undo and redo.
The wrapped state is an `UndoableState<T>`: a `past` list, most recent first,
a `present` value, and a `future` list, nearest first. `undoable(reducer:filterCondition:)`
returns a reducer over that state with these branches:

- `Undo` moves `present` to the front of `future` and takes the head of `past`.
- `Redo` does the mirror image.
- Any other action goes to the wrapped reducer. A result equal to `present` is ignored.
  If an optional filter rejects the action, only `present` is replaced.
  Otherwise the old `present` becomes the new head of `past` and `future` is cleared.

The model is pure, like the source. `UndoableState` is a Swift value type,
and the closure only builds a new value from the old one.

- `Wrappers.dfy`: `Option`, which stands for Swift's `T?`.
- `UndoReducer.dfy`: the state, the actions and the returned closure (`Step`), with one function per branch.
  It also holds the view the contracts are stated in:
  - `Timeline(s) = Reverse(past) + [present] + future` lists every recorded snapshot, oldest first.
  - `Cursor(s) = |past|` is the position of `present` in that list.

  Undo and Redo keep the timeline and move the cursor by one.
  A recorded change cuts the timeline after the cursor and appends the new value.
- `UndoLaws.dfy`: laws about one call and about whole runs of actions.
  `Run` threads the state through `Step` the way a store does.
- `CounterScenarios.dfy`: the counter reducer used by the tests, and each test scenario as a lemma.

Design decisions:

- Actions are `Action<A> = Undo | Redo | Dummy | Custom(A)`.
  `Dummy` is the inert `DummyAction`.
  `Custom` carries the application's own actions, which Swift tells apart by dynamic type casts.
- The wrapped reducer is a function value `(Action<A>, Option<T>) -> T`.
  The filter is an `Option` of a function value `(Action<A>, T, UndoableState<T>) -> bool`.
- The filter receives the state whose `present` is already the candidate, while `past` and `future` are still the old ones.
  The code assigns `present` (line 54) before it calls the filter (line 56), and the model does the same.
- The only control actions are `Undo` and `Redo` (lines 70-71); there is no other history command to model.

## Model

| member | source | states |
|---|---|---|
| UndoReducer.InitialState | ReSwiftUndo/UndoReducer.swift:26 | the seed state has an empty history, so its timeline is just the wrapped reducer's value for the dummy action, at cursor 0 |
| UndoReducer.UndoStep | ReSwiftUndo/UndoReducer.swift:31-38 | with an empty past the state is unchanged; otherwise the timeline is unchanged and the cursor moves back one place |
| UndoReducer.RedoStep | ReSwiftUndo/UndoReducer.swift:39-45 | with an empty future the state is unchanged; otherwise the timeline is unchanged and the cursor moves forward one place |
| UndoReducer.Forward | ReSwiftUndo/UndoReducer.swift:47-63 | if the wrapped reducer's result equals present, the state is unchanged; a changed and recorded result keeps the timeline up to the cursor, appends the result, advances the cursor and empties the future; a changed result that the filter rejects keeps past and future and replaces present |
| UndoReducer.Step | ReSwiftUndo/UndoReducer.swift:28-66 | an absent state is replaced by the initial state; Undo/Redo keep the timeline and the total history length and move the cursor by at most one; any other action either leaves the state identical, or replaces only present by the wrapped reducer's result, or makes that result present while pushing the old present onto past and clearing future |
| UndoLaws.TimelineDetermines | ReSwiftUndo/UndoReducer.swift:12-22 | two states with the same timeline and the same cursor are equal, so the timeline view loses nothing of past, present and future |
| UndoLaws.ControlKeepsSnapshots | ReSwiftUndo/UndoReducer.swift:31-45 | Undo and Redo keep the multiset of all held values; the new present was already present or in past or future |
| UndoLaws.UndoThenRedo | ReSwiftUndo/UndoReducer.swift:31-45 | with a non-empty past, Undo then Redo restores past, present and future exactly |
| UndoLaws.RedoThenUndo | ReSwiftUndo/UndoReducer.swift:31-45 | with a non-empty future, Redo then Undo restores the state exactly |
| UndoLaws.ExhaustedControlIsIdentity | ReSwiftUndo/UndoReducer.swift:31-45 | Undo with an empty past and Redo with an empty future return the state unchanged |
| UndoLaws.AbsentStateStartsFresh | ReSwiftUndo/UndoReducer.swift:26-29 | a call with no state behaves as a call on past [], present reducer(DummyAction, nil), future [] |
| UndoLaws.NoOpActionIgnored | ReSwiftUndo/UndoReducer.swift:47-53 | a forwarded action whose result equals present returns the identical state, past and future included |
| UndoLaws.RecordedChangeForks | ReSwiftUndo/UndoReducer.swift:47-63 | a changed result with no filter, or one the filter accepts, becomes present; the old present is the new head of past, the old past is its tail, and future is empty |
| UndoLaws.FilteredChangeTouchesOnlyPresent | ReSwiftUndo/UndoReducer.swift:54-58 | a changed result the filter rejects replaces present and leaves past and future untouched |
| UndoLaws.FilterDecidesCheckpoint | ReSwiftUndo/UndoReducer.swift:54-63 | for a changed result, past grows by one exactly when there is no filter or the filter accepts the action, the candidate, and the state whose present is already the candidate |
| UndoLaws.RunHistoryGrowth | ReSwiftUndo/UndoReducer.swift:28-66 | over any run of dispatches, past and future together grow by at most one entry per action |
| UndoLaws.UndoMany | ReSwiftUndo/UndoReducer.swift:31-38 | k Undos keep the timeline and move the cursor back k places, stopping at the oldest snapshot |
| UndoLaws.RedoMany | ReSwiftUndo/UndoReducer.swift:39-45 | k Redos keep the timeline and move the cursor forward k places, stopping at the newest snapshot |
| UndoLaws.UndoRedoManyRoundTrip | ReSwiftUndo/UndoReducer.swift:31-45 | k Undos followed by k Redos restore the exact state whenever past holds at least k entries |
| UndoLaws.ChangesAreAllRecorded | ReSwiftUndo/UndoReducer.swift:47-63 | without a filter, N actions that each change present add exactly N entries on top of the old past, which stays as the tail, and leave future empty |
| CounterScenarios.CounterReducer | ReSwiftUndoTests/ReSwiftUndoTests.swift:26-37 | Increase adds one to the counter, Decrease subtracts one, anything else keeps it; an absent state counts from 0 |
| CounterScenarios.InitialCounter | ReSwiftUndoTests/ReSwiftUndoTests.swift:45-47 | the counter's initial state holds 0 |
| CounterScenarios.Dispatched | ReSwiftUndoTests/ReSwiftUndoTests.swift:54-65 | the test store built from a nil state and fed the given dispatches, one Step each; with no dispatches it is the empty history around the initial counter, and its history never holds more entries than there were dispatches |
| CounterScenarios.StoreStartsAtZero | ReSwiftUndoTests/ReSwiftUndoTests.swift:53-58 | a fresh store holds past [], present 0, future [] |
| CounterScenarios.GoesToThePast | ReSwiftUndoTests/ReSwiftUndoTests.swift:57-69 | Increase gives past [0], present 1; then Undo gives past [], present 0, future [1] |
| CounterScenarios.GoesToTheFuture | ReSwiftUndoTests/ReSwiftUndoTests.swift:70-91 | Increase, Undo, Redo gives past [0], present 1, future [] |
| CounterScenarios.NullActionIsIgnored | ReSwiftUndoTests/ReSwiftUndoTests.swift:92-104 | an action the counter ignores after Increase leaves past [0], present 1, future [] |
| CounterScenarios.EveryChangeIsRecorded | ReSwiftUndoTests/ReSwiftUndoTests.swift:105-117 | Increase then Decrease gives past [1, 0], present 0 |
| CounterScenarios.BreaksOldFuture | ReSwiftUndoTests/ReSwiftUndoTests.swift:118-138 | Increase, Undo, Decrease gives past [0], present -1, and the future [1] is discarded |
| CounterScenarios.RedoAfterForkDoesNothing | ReSwiftUndoTests/ReSwiftUndoTests.swift:140-145 | a Redo after that fork leaves past [0], present -1, future [] |

## Left out

- The ReSwift `Store`, the `StateType` and `Reducer` conformances and the dispatch loop are library code outside this model.
  `Run` threads a state through a sequence of actions in their place.
  ReSwift dispatches its own initial action when a store is created from a nil state.
  The scenarios model that call as one `Step` with `Dummy` on an absent state, since the counter ignores both actions.
- `undoable` returns a closure and computes the initial state once, when it is called.
  `Step` takes the reducer and the filter as parameters and computes the initial state on each call.
  Both give the same result because the wrapped reducer is a pure function.
- Swift's `Equatable` equality is user-defined, and the model uses Dafny's structural equality instead.
  An `==` that identifies values which differ is not modelled.
  For the tests' `State`, whose `==` compares the only field, the two agree.
- CounterScenarios.CounterReducer: does not model the trap when Swift's 64-bit `Int` overflows on Increase or Decrease; the counter is unbounded.
- The Quick/Nimble harness and the global `store` variable of the tests are not modelled.
  Their scenarios are restated as lemmas over explicit states.
