/** The dispatch algorithm of `createReducer`'s `reducer`: a left fold of the
    action over the registered cases, in registration order.

    Each step of the source runs the case's update inside immer's `produce`.
    The model keeps only what a step yields: the update function reports the
    draft as it stands after its edits and the value it returned, and the
    step's result is the returned value, or the edited draft when it returned
    `undefined`. */
module Dispatch {
  import opened Wrappers
  import opened Actions

  /** What one call of an update function leaves behind: the draft after its
      edits, and its return value (None for `undefined`). */
  datatype Outcome<S> = Outcome(edited: S, returned: Option<S>)

  /** An update function `(draft, action, state) => State | void`. */
  type Update<!S, !P> = (S, Action<P>, S) -> Outcome<S>

  /** One registered case: a creator and its update function. */
  datatype Case<!S, !P> = Case(creator: Creator, update: Update<S, P>)

  /** A case fires when the action's type equals its creator's string conversion. */
  predicate Matches<P>(a: Action<P>, c: Creator)
    ensures Matches(a, c) ==> a.actionType == c.tag
    ensures c.EmptyActionCreator? && a == c.CallEmpty() ==> Matches(a, c)
    ensures c.PayloadActionCreator? && a.payload.Some? && a == c.Call(a.payload.value) ==> Matches(a, c)
  {
    a.actionType == c.ToString()
  }

  /** The state a fired case yields: the returned value, or the edited draft
      when the update returned `undefined`. */
  function Settle<S>(o: Outcome<S>): (r: S)
    ensures r == o.returned.GetOr(o.edited)
  {
    if o.returned.None? then o.edited else o.returned.value
  }

  /** One step of the fold. `outer` is the state the reducer was called with,
      passed to the update as its third argument. */
  function Step<S, P>(current: S, c: Case<S, P>, a: Action<P>, outer: S): (r: S)
    ensures !Matches(a, c.creator) ==> r == current
    ensures r == ApplyUpdates(UpdatesFor([c], a.actionType), current, a, outer)
  {
    if Matches(a, c.creator) then Settle(c.update(current, a, outer)) else current
  }

  /** `cases.reduce(step, current)`: the steps applied in registration order.
      An action that matches no case leaves the state unchanged, whatever the
      update functions are. */
  function Fold<S, P>(cases: seq<Case<S, P>>, current: S, a: Action<P>, outer: S): (r: S)
    ensures NoneMatch(cases, a) ==> r == current
    decreases |cases|
  {
    if cases == [] then current
    else Fold(cases[1..], Step(current, cases[0], a, outer), a, outer)
  }

  /** The state the fold starts from: the argument, or `initialState` when
      the argument is `undefined`. */
  function Start<S>(initialState: S, state: Option<S>): (r: S)
    ensures state == None ==> r == initialState
    ensures state.Some? ==> r == state.value
  {
    state.GetOr(initialState)
  }

  /** No registered case has the action's type as its tag. */
  ghost predicate NoneMatch<S, P>(cases: seq<Case<S, P>>, a: Action<P>) {
    forall i :: 0 <= i < |cases| ==> !Matches(a, cases[i].creator)
  }

  /** `reducer(state = initialState, action)` over a given case list. An action
      no case matches leaves the starting state as it is. */
  function Reduce<S, P>(cases: seq<Case<S, P>>, initialState: S, state: Option<S>, a: Action<P>): (r: S)
    ensures NoneMatch(cases, a) ==> r == Start(initialState, state)
  {
    var start := Start(initialState, state);
    Fold(cases, start, a, start)
  }

  // ---------------------------------------------------------------------------
  // One step

  /** A non-matching step passes the state through; a matching step yields the
      edited draft when the update returned `undefined`, and the returned value,
      whatever the edits, otherwise. */
  lemma StepCases<S, P>(current: S, c: Case<S, P>, a: Action<P>, outer: S)
    ensures !Matches(a, c.creator) ==> Step(current, c, a, outer) == current
    ensures Matches(a, c.creator) && c.update(current, a, outer).returned == None ==>
      Step(current, c, a, outer) == c.update(current, a, outer).edited
    ensures Matches(a, c.creator) && c.update(current, a, outer).returned.Some? ==>
      Step(current, c, a, outer) == c.update(current, a, outer).returned.value
  {
  }

  // ---------------------------------------------------------------------------
  // The fold

  /** Folding over two lists one after the other is folding over the second
      from where the first left off. */
  lemma {:induction false} FoldAppend<S, P>(xs: seq<Case<S, P>>, ys: seq<Case<S, P>>, current: S, a: Action<P>, outer: S)
    ensures Fold(xs + ys, current, a, outer) == Fold(ys, Fold(xs, current, a, outer), a, outer)
  {
    if xs == [] {
      assert xs + ys == ys;
    } else {
      assert (xs + ys)[1..] == xs[1..] + ys;
      FoldAppend(xs[1..], ys, Step(current, xs[0], a, outer), a, outer);
    }
  }

  /** A case appended at the end runs last, on the result of all earlier
      cases, and receives the reducer's starting state as its third argument. */
  lemma ReduceAfterAddCase<S, P>(cases: seq<Case<S, P>>, c: Case<S, P>, initialState: S, state: Option<S>, a: Action<P>)
    ensures Reduce(cases + [c], initialState, state, a)
         == Step(Reduce(cases, initialState, state, a), c, a, Start(initialState, state))
  {
    var start := Start(initialState, state);
    FoldAppend(cases, [c], start, a, start);
    assert [c][1..] == [];
  }

  /** Two cases with the same tag both fire, in registration order: the second
      update receives the state the first one produced. */
  lemma SameTagBothFire<S, P>(cases: seq<Case<S, P>>, c1: Case<S, P>, c2: Case<S, P>, current: S, a: Action<P>, outer: S)
    requires Matches(a, c1.creator) && Matches(a, c2.creator)
    ensures var before := Fold(cases, current, a, outer);
            var first := Settle(c1.update(before, a, outer));
            Fold(cases + [c1, c2], current, a, outer) == Settle(c2.update(first, a, outer))
  {
    var before := Fold(cases, current, a, outer);
    FoldAppend(cases, [c1, c2], current, a, outer);
    assert [c1, c2][1..] == [c2] && [c2][1..] == [];
    assert Fold([c1, c2], before, a, outer) == Fold([c2], Step(before, c1, a, outer), a, outer);
  }

  /** Calling the reducer with `undefined` is calling it with `initialState`. */
  lemma ReduceDefaultsToInitial<S, P>(cases: seq<Case<S, P>>, initialState: S, a: Action<P>)
    ensures Reduce(cases, initialState, None, a) == Reduce(cases, initialState, Some(initialState), a)
    ensures Reduce([], initialState, None, a) == initialState
  {
  }

  // ---------------------------------------------------------------------------
  // A reference definition: dispatch by tag

  /** The update functions registered under `tag`, in registration order. */
  function UpdatesFor<S, P>(cases: seq<Case<S, P>>, tag: string): (us: seq<Update<S, P>>)
    ensures |us| <= |cases|
    ensures us == [] <==> forall i :: 0 <= i < |cases| ==> cases[i].creator.ToString() != tag
    decreases |cases|
  {
    if cases == [] then []
    else
      var rest := UpdatesFor(cases[1..], tag);
      if cases[0].creator.ToString() == tag then [cases[0].update] + rest else rest
  }

  /** Applies update functions one after another, without any matching. */
  function ApplyUpdates<S, P>(us: seq<Update<S, P>>, current: S, a: Action<P>, outer: S): S
    decreases |us|
  {
    if us == [] then current
    else ApplyUpdates(us[1..], Settle(us[0](current, a, outer)), a, outer)
  }

  /** The fold over all cases is the same as looking up the updates registered
      under the action's type and applying exactly those, in order. */
  lemma {:induction false} FoldIsDispatchByTag<S, P>(cases: seq<Case<S, P>>, current: S, a: Action<P>, outer: S)
    ensures Fold(cases, current, a, outer) == ApplyUpdates(UpdatesFor(cases, a.actionType), current, a, outer)
  {
    if cases != [] {
      FoldIsDispatchByTag(cases[1..], Step(current, cases[0], a, outer), a, outer);
      if Matches(a, cases[0].creator) {
        var us := UpdatesFor(cases, a.actionType);
        assert us[0] == cases[0].update && us[1..] == UpdatesFor(cases[1..], a.actionType);
      }
    }
  }

  // ---------------------------------------------------------------------------
  // Editing the draft versus returning a new state

  /** Two update functions that always settle to the same state. */
  ghost predicate SettleAlike<S(!new), P(!new)>(f: Update<S, P>, g: Update<S, P>) {
    forall d, a, o :: Settle(f(d, a, o)) == Settle(g(d, a, o))
  }

  /** Case lists whose creators agree on their tags and whose updates settle alike
      reduce every action alike. */
  lemma {:induction false} FoldSettleAlike<S(!new), P(!new)>(xs: seq<Case<S, P>>, ys: seq<Case<S, P>>, current: S, a: Action<P>, outer: S)
    requires |xs| == |ys|
    requires forall i :: 0 <= i < |xs| ==>
      xs[i].creator.ToString() == ys[i].creator.ToString() && SettleAlike(xs[i].update, ys[i].update)
    ensures Fold(xs, current, a, outer) == Fold(ys, current, a, outer)
  {
    if xs != [] {
      assert SettleAlike(xs[0].update, ys[0].update);
      FoldSettleAlike(xs[1..], ys[1..], Step(current, xs[0], a, outer), a, outer);
    }
  }

  /** An update that applies `edit` to its draft and returns `undefined`. */
  function InPlace<S, P>(edit: (S, Action<P>, S) -> S): Update<S, P> {
    (d: S, a: Action<P>, o: S) => Outcome(edit(d, a, o), None)
  }

  /** An update that leaves its draft alone and returns `edit`'s result. */
  function Replacing<S, P>(edit: (S, Action<P>, S) -> S): Update<S, P> {
    (d: S, a: Action<P>, o: S) => Outcome(d, Some(edit(d, a, o)))
  }

  /** Editing the draft in place and returning the same new state explicitly
      produce the same result. */
  lemma InPlaceAlikeReplacing<S(!new), P(!new)>(edit: (S, Action<P>, S) -> S)
    ensures SettleAlike(InPlace(edit), Replacing(edit))
  {
  }
}
