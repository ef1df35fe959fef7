/** Actions and the two action-creator factories, `emptyAction` and `action`.
    A creator in the source is a JavaScript function whose `toString` is
    overridden to return its type string; here it is a value carrying that
    string as its tag. */
module Actions {
  import opened Wrappers

  /** An action `{type}` (payload None) or `{type, payload}` (payload Some). */
  datatype Action<+P> = Action(actionType: string, payload: Option<P>)

  /** An action creator: the zero-argument kind built by `emptyAction`, or
      the one-argument kind built by `action`. */
  datatype Creator =
    | EmptyActionCreator(tag: string)
    | PayloadActionCreator(tag: string)
  {
    /** The creator's string conversion, which the reducer compares with an
        action's type. */
    function ToString(): (s: string)
      ensures this == EmptyActionCreator(s) || this == PayloadActionCreator(s)
    {
      tag
    }

    /** Calls a zero-argument creator. */
    function CallEmpty<P>(): (a: Action<P>)
      requires EmptyActionCreator?
      ensures a.actionType == ToString() && a.payload == None
    {
      Action(tag, None)
    }

    /** Calls a one-argument creator with its payload. */
    function Call<P>(payload: P): (a: Action<P>)
      requires PayloadActionCreator?
      ensures a.actionType == ToString() && a.payload == Some(payload)
    {
      Action(tag, Some(payload))
    }
  }

  /** `emptyAction(type)`: a creator of payload-less actions tagged `t`. */
  function EmptyAction(t: string): (c: Creator)
    ensures c.EmptyActionCreator?
    ensures c.ToString() == t
  {
    EmptyActionCreator(t)
  }

  /** `action<T>(type)`: a creator of actions tagged `t` that carry a payload. */
  function PayloadAction(t: string): (c: Creator)
    ensures c.PayloadActionCreator?
    ensures c.ToString() == t
  {
    PayloadActionCreator(t)
  }

  /** Tag fidelity: `emptyAction(t)()` is `{type: t}` and the creator
      converts to `t`. */
  lemma EmptyActionFidelity<P>(t: string)
    ensures EmptyAction(t).ToString() == t
    ensures EmptyAction(t).CallEmpty<P>() == Action(t, None)
  {
  }

  /** Payload passthrough: `action(t)(p)` is exactly `{type: t, payload: p}`
      and the creator converts to `t`. */
  lemma PayloadActionFidelity<P>(t: string, p: P)
    ensures PayloadAction(t).ToString() == t
    ensures PayloadAction(t).Call(p) == Action(t, Some(p))
  {
  }
}
