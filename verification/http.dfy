/** What an awaited axios call hands back to its caller. The network is not
    modelled: every call site takes the outcome of its request as an input. */
module Http {
  import opened Wrappers
  import opened JsValues

  /** A response: its HTTP status and its parsed body (`resp.data`). */
  datatype Reply = Reply(status: int, data: JsVal)

  /** A settled request. With axios's default status check a request resolves
      only on a 2xx status; any other status rejects with `error.response`
      set, and a request that got no answer rejects without a response. */
  datatype Outcome =
    | Resolved(reply: Reply)
    | Rejected(response: Option<Reply>, message: string)

  /** `{}`: the empty object the source substitutes for a missing body. */
  const EmptyObject: JsVal := Obj(map[])

  /** `error.response?.status || 'no-response'`. */
  function ErrorStatus(response: Option<Reply>): (r: JsVal)
    ensures Truthy(r)
    ensures response.Some? && response.value.status != 0 ==> r == Num(response.value.status)
    ensures (response.None? || response.value.status == 0) ==> r == Str("no-response")
  {
    var s := if response.Some? then Num(response.value.status) else Undef;
    Or(s, Str("no-response"))
  }

  /** `error.response?.data || {}`. */
  function ErrorData(response: Option<Reply>): (r: JsVal)
    ensures Truthy(r)
    ensures response.Some? && Truthy(response.value.data) ==> r == response.value.data
    ensures !(response.Some? && Truthy(response.value.data)) ==> r == EmptyObject
  {
    var d := if response.Some? then response.value.data else Undef;
    Or(d, EmptyObject)
  }
}
