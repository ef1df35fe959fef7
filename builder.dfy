/** `createReducer(initialState)`: a builder that owns a mutable list of
    cases, appends to it with `addCase`, and hands out a `reducer` that folds
    over that list as it stands when the reducer is called. */
module Builder {
  import opened Wrappers
  import opened Actions
  import opened Dispatch

  class ReducerBuilder<!S, !P> {
    /** The state the reducer starts from when it is called with `undefined`. */
    const initialState: S
    /** The `cases` array, in registration order. */
    var cases: seq<Case<S, P>>

    /** `createReducer(initialState)`: no cases yet. */
    constructor (initialState: S)
      ensures this.initialState == initialState
      ensures cases == []
    {
      this.initialState := initialState;
      cases := [];
    }

    /** `addCase(creator, update)`: pushes one case at the end. Earlier cases
        stay as they were, and from now on every reducer call runs the new
        case last, on the state the earlier cases produced. */
    method AddCase(creator: Creator, update: Update<S, P>)
      modifies this
      ensures cases == old(cases) + [Case(creator, update)]
      ensures forall state: Option<S>, a: Action<P> ::
        Reducer(state, a) == Step(Reduce(old(cases), initialState, state, a), Case(creator, update), a, Start(initialState, state))
    {
      cases := cases + [Case(creator, update)];
      forall state: Option<S>, a: Action<P>
        ensures Reducer(state, a) == Step(Reduce(old(cases), initialState, state, a), Case(creator, update), a, Start(initialState, state))
      {
        ReduceAfterAddCase(old(cases), Case(creator, update), initialState, state, a);
      }
    }

    /** `reducer(state = initialState, action)`: reads the case list at call
        time. With no case matching the action (in particular, with no cases)
        it returns the state it starts from. */
    function Reducer(state: Option<S>, a: Action<P>): (r: S)
      reads this
      ensures NoneMatch(cases, a) ==> r == Start(initialState, state)
      ensures state == None ==> r == Reduce(cases, initialState, Some(initialState), a)
    {
      Reduce(cases, initialState, state, a)
    }
  }
}
