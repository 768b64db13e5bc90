/**
  Laws of the history transformer: how Undo, Redo and forwarded actions
  relate to each other, one call at a time and over whole runs of actions
  threaded through `Step` the way a dispatching store threads them.
 */
module UndoLaws {
  import opened Wrappers
  import opened UndoReducer

  /** `actions` dispatched in order, starting from `s`. */
  function Run<A, T(==)>(reducer: Reducer<A, T>, filter: Option<Filter<A, T>>, actions: seq<Action<A>>, s: UndoableState<T>): UndoableState<T>
    decreases |actions|
  {
    if actions == [] then s
    else Run(reducer, filter, actions[1..], Step(reducer, filter, actions[0], Some(s)))
  }

  /** `k` copies of `a`. */
  function Repeat<A>(a: Action<A>, k: nat): (r: seq<Action<A>>)
    ensures |r| == k
    ensures forall i :: 0 <= i < k ==> r[i] == a
  {
    if k == 0 then [] else [a] + Repeat(a, k - 1)
  }

  /** Position `i` of the reversed sequence holds position `|s| - 1 - i`. */
  lemma {:induction false} ReverseAt<T>(s: seq<T>, i: nat)
    requires i < |s|
    ensures Reverse(s)[i] == s[|s| - 1 - i]
  {
    if i < |s| - 1 {
      ReverseAt(s[1..], i);
    }
  }

  /** Reversing twice gives the sequence back. */
  lemma ReverseReverse<T>(s: seq<T>)
    ensures Reverse(Reverse(s)) == s
  {
    var r := Reverse(s);
    forall i | 0 <= i < |s|
      ensures Reverse(r)[i] == s[i]
    {
      ReverseAt(r, i);
      ReverseAt(s, |s| - 1 - i);
    }
  }

  /** Reversing keeps the elements and their multiplicities. */
  lemma {:induction false} ReverseMultiset<T>(s: seq<T>)
    ensures multiset(Reverse(s)) == multiset(s)
  {
    if s != [] {
      ReverseMultiset(s[1..]);
      assert s == [s[0]] + s[1..];
    }
  }

  /** The timeline and the cursor together determine the whole state. */
  lemma TimelineDetermines<T>(a: UndoableState<T>, b: UndoableState<T>)
    requires Timeline(a) == Timeline(b) && Cursor(a) == Cursor(b)
    ensures a == b
  {
    var n := Cursor(a);
    assert Reverse(a.past) == Timeline(a)[..n] == Reverse(b.past);
    ReverseReverse(a.past);
    ReverseReverse(b.past);
    assert a.future == Timeline(a)[n + 1..] == b.future;
  }

  /** A state and every value it holds, counted with multiplicity. */
  function Snapshots<T>(s: UndoableState<T>): multiset<T>
  {
    multiset(s.past) + multiset{s.present} + multiset(s.future)
  }

  /** Undo and Redo never invent a value: they only move snapshots between
      `past`, `present` and `future`, keeping every one of them. */
  lemma ControlKeepsSnapshots<A, T>(reducer: Reducer<A, T>, filter: Option<Filter<A, T>>, action: Action<A>, s: UndoableState<T>)
    requires action.Undo? || action.Redo?
    ensures var r := Step(reducer, filter, action, Some(s));
      && Snapshots(r) == Snapshots(s)
      && (r.present == s.present || r.present in s.past || r.present in s.future)
  {
    var r := Step(reducer, filter, action, Some(s));
    ReverseMultiset(s.past);
    ReverseMultiset(r.past);
    assert multiset(Timeline(s)) == Snapshots(s);
    assert multiset(Timeline(r)) == Snapshots(r);
  }

  /** Undo immediately followed by Redo gives back the exact state. */
  lemma UndoThenRedo<A, T>(reducer: Reducer<A, T>, filter: Option<Filter<A, T>>, s: UndoableState<T>)
    requires s.past != []
    ensures Step(reducer, filter, Redo, Some(Step(reducer, filter, Undo, Some(s)))) == s
  {
  }

  /** Redo immediately followed by Undo gives back the exact state. */
  lemma RedoThenUndo<A, T>(reducer: Reducer<A, T>, filter: Option<Filter<A, T>>, s: UndoableState<T>)
    requires s.future != []
    ensures Step(reducer, filter, Undo, Some(Step(reducer, filter, Redo, Some(s)))) == s
  {
  }

  /** With no history in the requested direction, Undo and Redo do nothing. */
  lemma ExhaustedControlIsIdentity<A, T>(reducer: Reducer<A, T>, filter: Option<Filter<A, T>>, action: Action<A>, s: UndoableState<T>)
    requires (action.Undo? && s.past == []) || (action.Redo? && s.future == [])
    ensures Step(reducer, filter, action, Some(s)) == s
  {
  }

  /** An absent state is the initial state: empty history around the value
      the wrapped reducer gives for the seeding action. */
  lemma AbsentStateStartsFresh<A, T>(reducer: Reducer<A, T>, filter: Option<Filter<A, T>>, action: Action<A>)
    ensures Step(reducer, filter, action, None) == Step(reducer, filter, action, Some(InitialState(reducer)))
    ensures InitialState(reducer).past == [] && InitialState(reducer).future == []
    ensures InitialState(reducer).present == reducer(Dummy, None)
  {
  }

  /** A forwarded action whose result equals `present` is ignored entirely. */
  lemma NoOpActionIgnored<A, T>(reducer: Reducer<A, T>, filter: Option<Filter<A, T>>, action: Action<A>, s: UndoableState<T>)
    requires !action.Undo? && !action.Redo?
    requires reducer(action, Some(s.present)) == s.present
    ensures Step(reducer, filter, action, Some(s)) == s
  {
  }

  /** A changed, recorded result pushes the old present onto `past` and
      discards the whole future: history forks. */
  lemma RecordedChangeForks<A, T>(reducer: Reducer<A, T>, filter: Option<Filter<A, T>>, action: Action<A>, s: UndoableState<T>)
    requires !action.Undo? && !action.Redo?
    requires reducer(action, Some(s.present)) != s.present
    requires var c := reducer(action, Some(s.present));
      filter.None? || filter.value(action, c, s.(present := c))
    ensures var r := Step(reducer, filter, action, Some(s));
      && r.present == reducer(action, Some(s.present))
      && |r.past| == |s.past| + 1 && r.past[0] == s.present && r.past[1..] == s.past
      && r.future == []
  {
  }

  /** A changed result the filter rejects replaces `present` and nothing else. */
  lemma FilteredChangeTouchesOnlyPresent<A, T>(reducer: Reducer<A, T>, f: Filter<A, T>, action: Action<A>, s: UndoableState<T>)
    requires !action.Undo? && !action.Redo?
    requires reducer(action, Some(s.present)) != s.present
    requires !f(action, reducer(action, Some(s.present)), s.(present := reducer(action, Some(s.present))))
    ensures Step(reducer, Some(f), action, Some(s)) == s.(present := reducer(action, Some(s.present)))
  {
  }

  /** For a changed result, a checkpoint is added exactly when there is no
      filter or the filter accepts the action, the candidate, and the state
      whose present is already the candidate. */
  lemma FilterDecidesCheckpoint<A, T>(reducer: Reducer<A, T>, filter: Option<Filter<A, T>>, action: Action<A>, s: UndoableState<T>)
    requires !action.Undo? && !action.Redo?
    requires reducer(action, Some(s.present)) != s.present
    ensures var c := reducer(action, Some(s.present));
      var r := Step(reducer, filter, action, Some(s));
      |r.past| == |s.past| + 1 <==> (filter.None? || filter.value(action, c, s.(present := c)))
  {
  }

  /** Dispatching `xs` and then `ys` is dispatching `xs + ys`. */
  lemma {:induction false} RunAppend<A, T>(reducer: Reducer<A, T>, filter: Option<Filter<A, T>>, xs: seq<Action<A>>, ys: seq<Action<A>>, s: UndoableState<T>)
    ensures Run(reducer, filter, xs + ys, s) == Run(reducer, filter, ys, Run(reducer, filter, xs, s))
    decreases |xs|
  {
    if xs != [] {
      assert (xs + ys)[1..] == xs[1..] + ys;
      RunAppend(reducer, filter, xs[1..], ys, Step(reducer, filter, xs[0], Some(s)));
    } else {
      assert xs + ys == ys;
    }
  }

  /** Each dispatch adds at most one entry to the history: only a recorded
      change grows it, and Undo and Redo move entries without adding any. */
  lemma {:induction false} RunHistoryGrowth<A, T>(reducer: Reducer<A, T>, filter: Option<Filter<A, T>>, actions: seq<Action<A>>, s: UndoableState<T>)
    ensures var r := Run(reducer, filter, actions, s);
      |r.past| + |r.future| <= |s.past| + |s.future| + |actions|
    decreases |actions|
  {
    if actions != [] {
      RunHistoryGrowth(reducer, filter, actions[1..], Step(reducer, filter, actions[0], Some(s)));
    }
  }

  /** Dispatching one more action is one more `Step`. */
  lemma RunSnoc<A, T>(reducer: Reducer<A, T>, filter: Option<Filter<A, T>>, xs: seq<Action<A>>, a: Action<A>, s: UndoableState<T>)
    ensures Run(reducer, filter, xs + [a], s) == Step(reducer, filter, a, Some(Run(reducer, filter, xs, s)))
  {
    RunAppend(reducer, filter, xs, [a], s);
    var t := Run(reducer, filter, xs, s);
    assert Run(reducer, filter, [a], t) == Run(reducer, filter, [], Step(reducer, filter, a, Some(t)));
  }

  /** Dispatching `k` Undos (Redos) is one Undo (Redo), then `k - 1` more. */
  lemma RunRepeatFront<A, T>(reducer: Reducer<A, T>, filter: Option<Filter<A, T>>, a: Action<A>, k: nat, s: UndoableState<T>)
    requires k > 0
    ensures a.Undo? ==> Run(reducer, filter, Repeat(a, k), s) == Run(reducer, filter, Repeat(a, k - 1), UndoStep(s))
    ensures a.Redo? ==> Run(reducer, filter, Repeat(a, k), s) == Run(reducer, filter, Repeat(a, k - 1), RedoStep(s))
  {
    assert Repeat(a, k)[1..] == Repeat(a, k - 1);
  }

  /** `k` Undos walk the cursor `k` places back along an unchanged timeline,
      stopping at the oldest snapshot. */
  lemma {:induction false} UndoMany<A, T>(reducer: Reducer<A, T>, filter: Option<Filter<A, T>>, k: nat, s: UndoableState<T>)
    ensures var r := Run(reducer, filter, Repeat(Undo, k), s);
      Timeline(r) == Timeline(s) && Cursor(r) == if k <= Cursor(s) then Cursor(s) - k else 0
  {
    if k > 0 {
      var t := UndoStep(s);
      RunRepeatFront(reducer, filter, Undo, k, s);
      UndoMany(reducer, filter, k - 1, t);
    }
  }

  /** `k` Redos walk the cursor `k` places forward along an unchanged
      timeline, stopping at the newest snapshot. */
  lemma {:induction false} RedoMany<A, T>(reducer: Reducer<A, T>, filter: Option<Filter<A, T>>, k: nat, s: UndoableState<T>)
    ensures var r := Run(reducer, filter, Repeat(Redo, k), s);
      Timeline(r) == Timeline(s) && Cursor(r) == if k <= |s.future| then Cursor(s) + k else Cursor(s) + |s.future|
  {
    if k > 0 {
      var t := RedoStep(s);
      RunRepeatFront(reducer, filter, Redo, k, s);
      RedoMany(reducer, filter, k - 1, t);
    }
  }

  /** Undoing `k` steps and redoing `k` steps restores the exact state, as
      long as there were `k` steps to undo. */
  lemma UndoRedoManyRoundTrip<A, T>(reducer: Reducer<A, T>, filter: Option<Filter<A, T>>, k: nat, s: UndoableState<T>)
    requires k <= |s.past|
    ensures Run(reducer, filter, Repeat(Undo, k) + Repeat(Redo, k), s) == s
  {
    RunAppend(reducer, filter, Repeat(Undo, k), Repeat(Redo, k), s);
    var mid := Run(reducer, filter, Repeat(Undo, k), s);
    UndoMany(reducer, filter, k, s);
    RedoMany(reducer, filter, k, mid);
    TimelineDetermines(Run(reducer, filter, Repeat(Redo, k), mid), s);
  }

  /** Every action of `actions` is forwarded and changes `present` when it
      is dispatched (no filter is in play). */
  predicate AllChange<A, T(==)>(reducer: Reducer<A, T>, actions: seq<Action<A>>, s: UndoableState<T>)
    decreases |actions|
  {
    actions == []
    || (&& !actions[0].Undo? && !actions[0].Redo?
        && reducer(actions[0], Some(s.present)) != s.present
        && AllChange(reducer, actions[1..], Step(reducer, None, actions[0], Some(s))))
  }

  /** Without a filter, N state-changing actions add exactly N checkpoints
      on top of the old past, and leave no future. */
  lemma {:induction false} ChangesAreAllRecorded<A, T>(reducer: Reducer<A, T>, actions: seq<Action<A>>, s: UndoableState<T>)
    requires AllChange(reducer, actions, s)
    ensures var r := Run(reducer, None, actions, s);
      && |r.past| == |s.past| + |actions|
      && r.past[|actions|..] == s.past
      && (actions != [] ==> r.future == [])
    decreases |actions|
  {
    if actions != [] {
      var t := Step(reducer, None, actions[0], Some(s));
      RecordedChangeForks(reducer, None, actions[0], s);
      ChangesAreAllRecorded(reducer, actions[1..], t);
      var r := Run(reducer, None, actions, s);
      assert r.past[|actions| - 1..] == t.past;
      assert r.past[|actions|..] == t.past[1..];
    }
  }
}
