/**
  The counter application the ReSwiftUndo tests wrap, and each test
  scenario restated as a lemma about the states a store goes through.
 */
module CounterScenarios {
  import opened Wrappers
  import opened UndoReducer
  import opened UndoLaws

  datatype CounterAction = Increase | Decrease | NullAction

  datatype State = State(counter: int)

  /** The counter's initial state. */
  function InitialCounter(): (c: State)
    ensures c.counter == 0
  {
    State(0)
  }

  /** The wrapped reducer: Increase adds one, Decrease subtracts one, every
      other action (the seeding action included) keeps the state; an absent
      state starts from the initial counter. */
  function CounterReducer(action: Action<CounterAction>, state: Option<State>): (r: State)
    ensures var before := state.GetOr(InitialCounter()).counter;
      r.counter == before + (if action == Custom(Increase) then 1 else if action == Custom(Decrease) then -1 else 0)
  {
    var s := state.GetOr(InitialCounter());
    match action
    case Custom(Increase) => s.(counter := s.counter + 1)
    case Custom(Decrease) => s.(counter := s.counter - 1)
    case _ => s
  }

  /** A store built over the undoable counter without a filter, from an
      absent state (which the store seeds with an action the counter
      ignores), after `actions` have been dispatched. */
  function Dispatched(actions: seq<Action<CounterAction>>): (r: UndoableState<State>)
    ensures actions == [] ==> r == UndoableState([], InitialCounter(), [])
    ensures |r.past| + |r.future| <= |actions|
  {
    RunHistoryGrowth(CounterReducer, None, actions, Step(CounterReducer, None, Dummy, None));
    Run(CounterReducer, None, actions, Step(CounterReducer, None, Dummy, None))
  }

  /** One more dispatch is one more call of the undoable reducer. */
  lemma DispatchedSnoc(actions: seq<Action<CounterAction>>, a: Action<CounterAction>)
    ensures Dispatched(actions + [a]) == Step(CounterReducer, None, a, Some(Dispatched(actions)))
  {
    RunSnoc(CounterReducer, None, actions, a, Step(CounterReducer, None, Dummy, None));
  }

  /** The store starts with no history around counter 0. */
  lemma StoreStartsAtZero()
    ensures Dispatched([]) == UndoableState([], State(0), [])
  {
  }

  /** "goes to the past": Increase records 0, Undo brings it back. */
  lemma GoesToThePast()
    ensures Dispatched([Custom(Increase)]) == UndoableState([State(0)], State(1), [])
    ensures Dispatched([Custom(Increase), Undo]) == UndoableState([], State(0), [State(1)])
  {
    StoreStartsAtZero();
    DispatchedSnoc([], Custom(Increase));
    assert [] + [Custom(Increase)] == [Custom(Increase)];
    DispatchedSnoc([Custom(Increase)], Undo);
    assert [Custom(Increase)] + [Undo] == [Custom(Increase), Undo];
  }

  /** "goes to the future": Increase, Undo, Redo ends where Increase did. */
  lemma GoesToTheFuture()
    ensures Dispatched([Custom(Increase), Undo, Redo]) == UndoableState([State(0)], State(1), [])
  {
    GoesToThePast();
    DispatchedSnoc([Custom(Increase), Undo], Redo);
    assert [Custom(Increase), Undo] + [Redo] == [Custom(Increase), Undo, Redo];
  }

  /** "actions that do not affect state shouldn't be considered". */
  lemma NullActionIsIgnored()
    ensures Dispatched([Custom(Increase), Custom(NullAction)]) == UndoableState([State(0)], State(1), [])
  {
  }

  /** "actions that do affect state should be considered": two changes, two
      checkpoints. */
  lemma EveryChangeIsRecorded()
    ensures Dispatched([Custom(Increase), Custom(Decrease)]) == UndoableState([State(1), State(0)], State(0), [])
  {
  }

  /** "breaks old future": a change after Undo discards the undone branch. */
  lemma BreaksOldFuture()
    ensures Dispatched([Custom(Increase), Undo, Custom(Decrease)]) == UndoableState([State(0)], State(-1), [])
  {
    GoesToThePast();
    DispatchedSnoc([Custom(Increase), Undo], Custom(Decrease));
    assert [Custom(Increase), Undo] + [Custom(Decrease)] == [Custom(Increase), Undo, Custom(Decrease)];
  }

  /** "breaks old future", continued: after the fork, Redo has nothing to
      replay and leaves the state as it is. */
  lemma RedoAfterForkDoesNothing()
    ensures Dispatched([Custom(Increase), Undo, Custom(Decrease), Redo]) == UndoableState([State(0)], State(-1), [])
  {
    BreaksOldFuture();
    DispatchedSnoc([Custom(Increase), Undo, Custom(Decrease)], Redo);
    assert [Custom(Increase), Undo, Custom(Decrease)] + [Redo] == [Custom(Increase), Undo, Custom(Decrease), Redo];
  }
}
