# fun-redux reducer builder, modelled in Dafny

This project models the runtime core of fun-redux (`src/index.ts`): the two
action-creator factories `emptyAction` and `action`, and `createReducer`, which
owns an append-only list of cases, registers cases with `addCase`, and hands
out a `reducer` that folds an action over every registered case in
registration order.

- `wrappers.dfy` — `Option`, standing for JavaScript's `undefined`.
- `actions.dfy` (module `Actions`) — an `Action` is a type string plus an
  optional payload (`src/types.ts:3-10`). A `Creator` is a value carrying its
  type string as a tag; `ToString()` returns it, as the overridden `toString`
  does.
- `dispatch.dfy` (module `Dispatch`) — the dispatch algorithm as pure
  functions. An update function is a Dafny function value
  `(draft, action, state) -> Outcome(edited, returned)`. `returned == None`
  means the source's update returned `undefined`, so the step keeps the edited
  draft. `Step`, `Fold` and `Reduce` are one fold step, `cases.reduce`, and
  `reducer` over a given case list. `UpdatesFor` and `ApplyUpdates` are an
  independent reference definition: look up the updates registered under a
  tag, then apply exactly those.
- `builder.dfy` (module `Builder`) — the class `ReducerBuilder`. Its field
  `cases` is the mutable `cases` array. `AddCase` appends to it. The function
  `Reducer` reads the field when it is called, so cases added after the
  reducer was handed out still apply.
- `scenarios.dfy` (module `Scenarios`) — a counter example. A reducer is
  taken from the builder as a function value before its case is registered,
  and it still sees that case afterwards. Two cases share one tag and both
  fire.

## Model

| member | source | states |
|---|---|---|
| `Actions.EmptyAction` | src/index.ts:58-67 | the creator takes no argument, and its string conversion is exactly the given type |
| `Actions.PayloadAction` | src/index.ts:69-79 | the creator takes a payload, and its string conversion is exactly the given type |
| `Actions.Creator.CallEmpty` | src/index.ts:59-63 | calling a zero-argument creator gives an action whose type is the creator's string conversion and which has no payload |
| `Actions.Creator.Call` | src/index.ts:70-75 | calling a one-argument creator with `p` gives an action whose type is the creator's string conversion and whose payload is `p` |
| `Actions.EmptyActionFidelity` | src/index.ts:58-66 | `emptyAction(t)()` is `{type: t}`, and the creator converts to `t` |
| `Actions.PayloadActionFidelity` | src/index.ts:69-78 | `action(t)(p)` is exactly `{type: t, payload: p}`, and the creator converts to `t` |
| `Dispatch.Reduce` | src/index.ts:26-43 | if no registered creator's tag equals the action's type, the result is the starting state: the argument, or `initialState` when the argument is undefined |
| `Dispatch.StepCases` | src/index.ts:32-39 | a non-matching step passes the state through; a matching step whose update returns undefined yields the edited draft; a matching step whose update returns a value yields that value, whatever the draft edits were |
| `Actions.Creator.ToString` | src/index.ts:65-77 | a creator's string conversion is its own type string, whichever kind of creator it is |
| `Dispatch.Matches` | src/index.ts:33 | a case fires only when the action's type equals its creator's tag, and an action made by a creator always fires that creator's cases |
| `Dispatch.Settle` | src/index.ts:36 | a fired case yields what its update returned, with the edited draft as the default when the update returned undefined |
| `Dispatch.Start` | src/index.ts:26 | the fold starts from the state argument when one is given and from `initialState` when it is undefined |
| `Dispatch.Step` | src/index.ts:32-39 | a case that does not match passes the state through; in general one step is the dispatch-by-tag reference applied to a one-case list |
| `Dispatch.Fold` | src/index.ts:27-42 | folding an action that matches no case returns the state it started from, for any update functions |
| `Dispatch.FoldAppend` | src/index.ts:27-42 | cases run in list order: folding over `xs + ys` is folding over `ys` from the state `xs` produced |
| `Dispatch.ReduceAfterAddCase` | src/index.ts:23-42 | a case pushed at the end runs last, on the state all earlier cases produced, and gets the reducer's starting state (not the accumulator) as its third argument |
| `Dispatch.SameTagBothFire` | src/index.ts:27-42 | two trailing cases that both match fire in registration order, and the second update's draft is the first one's result |
| `Dispatch.ReduceDefaultsToInitial` | src/index.ts:26 | calling the reducer with an undefined state is the same as calling it with `initialState`; with no cases it returns `initialState` |
| `Dispatch.UpdatesFor` | src/index.ts:33 | the updates registered under a tag are at most as many as the cases, and there are none exactly when no creator's string conversion equals the tag |
| `Dispatch.FoldIsDispatchByTag` | src/index.ts:27-42 | the fold over all cases equals applying, in registration order, exactly the updates registered under the action's type |
| `Dispatch.FoldSettleAlike` | src/index.ts:32-40 | case lists whose creators have the same tags, position by position, and whose updates always settle to the same state, reduce every action to the same state |
| `Dispatch.InPlaceAlikeReplacing` | src/index.ts:34-36 | editing the draft and returning undefined settles to the same state as leaving the draft alone and returning the edited value |
| `Builder.ReducerBuilder.constructor` | src/index.ts:13-14 | a new builder keeps the given initial state and starts with no cases |
| `Builder.ReducerBuilder.AddCase` | src/index.ts:15-24 | exactly one case is appended at the end and earlier cases are unchanged; from then on every reducer call runs the new case last, on what the old list produced |
| `Builder.ReducerBuilder.Reducer` | src/index.ts:26-45 | reads the current case list at call time; with no matching case it returns the starting state; an undefined state argument behaves as `initialState` |
| `Scenarios.LiveRegistration` | src/index.ts:13-45 | a reducer taken before `addCase(increment, …)` ignores `increment(5)` on `{count: 0}`, and after the call it yields `{count: 5}` |
| `Scenarios.SameTagTwice` | src/index.ts:27-42 | with two `increment` cases, `increment(3)` on `{count: 1}` yields `{count: 7}`; an action with another type leaves `{count: 2}` as it is |

## Left out

- immer's `produce` (src/index.ts:1, 32): structural sharing, freezing of the result, and immer's own errors, such as a recipe that both edits the draft and returns a value. Each step is modelled only by what it yields.
- The `toString` override on the creator functions (src/index.ts:65, 77): the tag is a field of the creator value.
- Exceptions thrown by an update function, which abort the fold: update functions are total Dafny functions.
- Calling a creator with the wrong number of arguments: `CallEmpty` and `Call` require the creator kind that the TypeScript signatures demand. Extra arguments are ignored and a missing payload is `undefined` at run time; neither is modelled.
- `emptyAction` and `action` accept any string, the empty string included. The code does not check for a non-empty tag, so the model does not either.
- The commented-out `customDispatch` (src/index.ts:48-56): it is dead code.
- `src/types.ts` beyond the shapes of `Action` and `Case`, and `rollup.config.js`: they are types and build configuration with no run-time behaviour.
- Scenarios.AddPayload: reads a missing payload as 0, where JavaScript would produce `NaN`. The scenarios only pass payloads.
- Update functions are pure: their side effects are not modelled, including calling `addCase` during a dispatch. `Array.prototype.reduce` fixes the length of the list when it starts, so the running fold would not visit that case; it first runs on the next dispatch.
