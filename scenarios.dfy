/** Worked uses of the builder: the counter example, and a reducer handed out
    before its case was registered. */
module Scenarios {
  import opened Wrappers
  import opened Actions
  import opened Dispatch
  import opened Builder

  datatype Counter = Counter(count: int)

  /** `(draft, action) => { draft.count += action.payload }`: edits the draft
      and returns `undefined`. */
  function AddPayload(draft: Counter, a: Action<int>, outer: Counter): Outcome<Counter> {
    Outcome(Counter(draft.count + a.payload.GetOr(0)), None)
  }

  /** The reducer is taken from the builder before any case exists. Called
      then, it ignores `increment(5)`; after `addCase(increment, ...)` the same
      reducer applies the new case, because it reads the live case list. */
  method LiveRegistration() returns (before: Counter, after: Counter)
    ensures before == Counter(0)
    ensures after == Counter(5)
  {
    var builder := new ReducerBuilder<Counter, int>(Counter(0));
    var reducer := builder.Reducer;
    var increment := PayloadAction("increment");
    before := reducer(Some(Counter(0)), increment.Call(5));
    builder.AddCase(increment, AddPayload);
    after := reducer(Some(Counter(0)), increment.Call(5));
  }

  /** Two cases registered under the same tag both fire, in order: the second
      update sees the first one's result. An untagged action changes nothing. */
  method SameTagTwice() returns (twice: Counter, other: Counter)
    ensures twice == Counter(7)
    ensures other == Counter(2)
  {
    var builder := new ReducerBuilder<Counter, int>(Counter(0));
    var increment := PayloadAction("increment");
    builder.AddCase(increment, AddPayload);
    assert builder.Reducer(Some(Counter(1)), increment.Call(3)) == Counter(4);
    builder.AddCase(increment, AddPayload);
    twice := builder.Reducer(Some(Counter(1)), increment.Call(3));
    other := builder.Reducer(Some(Counter(2)), EmptyAction("reset").CallEmpty());
  }
}
