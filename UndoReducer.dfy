/**
  The undo/redo history transformer of ReSwiftUndo.

  `Step` is the reducer closure that `undoable(reducer:filterCondition:)`
  returns, with the wrapped reducer and the optional filter passed
  explicitly. The history is specified through a second view of the state:
  the `Timeline` of all recorded snapshots, oldest first, and the `Cursor`
  that points at `present` inside it.
 */
module UndoReducer {
  import opened Wrappers

  /** Actions: the two control markers, the inert seeding action, and the
      application's own actions, forwarded to the wrapped reducer. */
  datatype Action<A> = Undo | Redo | Dummy | Custom(action: A)

  /** `past` is most-recent-first, `future` nearest-first. */
  datatype UndoableState<T> = UndoableState(past: seq<T>, present: T, future: seq<T>)

  /** The wrapped reducer; `None` asks for the initial value. */
  type Reducer<!A, !T> = (Action<A>, Option<T>) -> T

  /** The filter sees the action, the candidate present, and the state. */
  type Filter<!A, !T> = (Action<A>, T, UndoableState<T>) -> bool

  /** `s` backwards. */
  function Reverse<T>(s: seq<T>): (r: seq<T>)
    ensures |r| == |s|
  {
    if s == [] then [] else Reverse(s[1..]) + [s[0]]
  }

  /** Every snapshot the state knows of, in chronological order. */
  function Timeline<T>(s: UndoableState<T>): (t: seq<T>)
    ensures |t| == |s.past| + 1 + |s.future|
    ensures t[Cursor(s)] == s.present
  {
    Reverse(s.past) + [s.present] + s.future
  }

  /** The position of `present` in the timeline. */
  function Cursor<T>(s: UndoableState<T>): nat
  {
    |s.past|
  }

  /** The state used when none is given: empty history around the value
      the wrapped reducer produces for the seeding action. */
  function InitialState<A, T>(reducer: Reducer<A, T>): (s: UndoableState<T>)
    ensures Timeline(s) == [reducer(Dummy, None)] && Cursor(s) == 0
  {
    UndoableState([], reducer(Dummy, None), [])
  }

  /** Undo: step one snapshot back along the same timeline, if there is one. */
  function UndoStep<T>(s: UndoableState<T>): (r: UndoableState<T>)
    ensures s.past == [] ==> r == s
    ensures s.past != [] ==> Timeline(r) == Timeline(s) && Cursor(r) == Cursor(s) - 1
  {
    if s.past == [] then s
    else UndoableState(s.past[1..], s.past[0], [s.present] + s.future)
  }

  /** Redo: step one snapshot forward along the same timeline, if there is one. */
  function RedoStep<T>(s: UndoableState<T>): (r: UndoableState<T>)
    ensures s.future == [] ==> r == s
    ensures s.future != [] ==> Timeline(r) == Timeline(s) && Cursor(r) == Cursor(s) + 1
  {
    if s.future == [] then s
    else UndoableState([s.present] + s.past, s.future[0], s.future[1..])
  }

  /** Any other action: forwarded to the wrapped reducer. A result equal to
      `present` leaves the state alone; a filtered result replaces only
      `present`; otherwise the timeline is cut after the cursor and the
      result appended, discarding the undone future. */
  function Forward<A, T(==)>(reducer: Reducer<A, T>, filter: Option<Filter<A, T>>, action: Action<A>, s: UndoableState<T>): (r: UndoableState<T>)
    ensures var c := reducer(action, Some(s.present));
      && (c == s.present ==> r == s)
      && (c != s.present ==> r.present == c)
      && (c != s.present && (filter.None? || filter.value(action, c, s.(present := c))) ==>
            Timeline(r) == Timeline(s)[..Cursor(s) + 1] + [c] && Cursor(r) == Cursor(s) + 1 && r.future == [])
      && (c != s.present && filter.Some? && !filter.value(action, c, s.(present := c)) ==>
            r.past == s.past && r.future == s.future)
  {
    var candidate := reducer(action, Some(s.present));
    if candidate == s.present then s
    else
      var updated := s.(present := candidate);
      if filter.Some? && !filter.value(action, candidate, updated) then updated
      else UndoableState([s.present] + s.past, candidate, [])
  }

  /** The reducer closure returned by `undoable`. */
  function Step<A, T(==)>(reducer: Reducer<A, T>, filter: Option<Filter<A, T>>, action: Action<A>, state: Option<UndoableState<T>>): (r: UndoableState<T>)
    ensures var s := state.GetOr(InitialState(reducer));
      && ((action.Undo? || action.Redo?) ==>
            Timeline(r) == Timeline(s) && |r.past| + |r.future| == |s.past| + |s.future|)
      && (action.Undo? ==> Cursor(r) == if s.past == [] then Cursor(s) else Cursor(s) - 1)
      && (action.Redo? ==> Cursor(r) == if s.future == [] then Cursor(s) else Cursor(s) + 1)
      && (!(action.Undo? || action.Redo?) ==>
            r == s
            || (r.present != s.present && r.present == reducer(action, Some(s.present))
                && r.past == s.past && r.future == s.future)
            || (r.present != s.present && r.present == reducer(action, Some(s.present))
                && r.past == [s.present] + s.past && r.future == []))
  {
    var s := state.GetOr(InitialState(reducer));
    match action
    case Undo => UndoStep(s)
    case Redo => RedoStep(s)
    case _ => Forward(reducer, filter, action, s)
  }
}
