/** How a hydrate function turns its session and its one cloud call into a
    result. Session creation and the call are given as their outcomes. */
module Hydrate {
  import opened Wrappers

  /** `svc, err := Service(...); if err != nil { return nil, err }` followed by
      `out, err := svc.Call(...); if err != nil { return nil, err }`: the
      session's failure, else the call's failure, else the call's output. */
  function CheckedCall<T>(session: Result<()>, response: Result<T>): (r: Result<T>)
    ensures r.Err? <==> session.Err? || response.Err?
    ensures session.Err? ==> r == Err(session.error)
    ensures session.Ok? && response.Err? ==> r == Err(response.error)
    ensures r.Ok? ==> r.value == response.value
  {
    if session.Err? then Err(session.error) else response
  }

  /** `out, _ := svc.Call(...)` followed by `if err != nil`, where `err` is
      still the session's error: a failed call is not reported, and the hydrate
      carries on with no usable output (`None`: the SDK's zero-valued output
      that a failed call returns). */
  function DiscardingCall<T>(session: Result<()>, response: Result<T>): (r: Result<Option<T>>)
    ensures r.Err? <==> session.Err?
    ensures session.Err? ==> r == Err(session.error)
    ensures r.Ok? ==> (r.value.None? <==> response.Err?)
    ensures r.Ok? && r.value.Some? ==> r.value.value == response.value
  {
    if session.Err? then Err(session.error)
    else if response.Err? then Ok(None)
    else Ok(Some(response.value))
  }

  /** The discarded error: with a working session and a failing call, the
      hydrate goes on with no usable output, as if the call had succeeded, whereas
      the checked form reports the call's error. */
  lemma DiscardingCallLosesError<T>(e: Error)
    ensures DiscardingCall<T>(Ok(()), Err(e)) == Ok(None)
    ensures CheckedCall<T>(Ok(()), Err(e)) == Err(e)
  {
  }

  /** Where the call succeeds, the two forms agree; they differ only on a
      failed call. */
  lemma CallsAgreeOnSuccess<T>(session: Result<()>, response: Result<T>)
    requires response.Ok?
    ensures CheckedCall(session, response).Err? <==> DiscardingCall(session, response).Err?
    ensures CheckedCall(session, response).Ok? ==>
              DiscardingCall(session, response) == Ok(Some(CheckedCall(session, response).value))
  {
  }
}
