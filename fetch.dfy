// What the API modules exchange with `fetch`: the request they send, the
// response they get back, and how each call ends (a returned value or a
// thrown error). The network itself is a function parameter.

module Fetch {
  import opened Js

  /** A request body: none, or `JSON.stringify(payload)`. */
  datatype Body = NoBody | JsonBody(payload: Value)

  /** `fetch(url, {method, headers, body})`; an absent method is "GET".
      Header values are kept as the values the code supplies. */
  datatype Request = Request(url: string, httpMethod: string, headers: map<string, Value>, body: Body)

  /** What `fetch` produces for a request: a rejected promise (no connection),
      or a response with its status and the result of `response.json()`,
      where None stands for a body that does not parse. */
  datatype Response = NetworkFailure | Resp(status: int, body: Option<Value>)

  /** `response.ok`: a status in the range 200-299. */
  predicate Ok(r: Response)
    requires r.Resp?
  {
    200 <= r.status <= 299
  }

  /** An exception: `new Error(message)`, or a TypeError or SyntaxError raised
      by the runtime (a property read on null/undefined, a rejected `fetch`,
      a body `response.json()` cannot parse). */
  datatype Thrown = Error(message: string) | TypeError | SyntaxError

  /** How an async call settles. */
  datatype Outcome = Return(value: Value) | Throw(error: Thrown)

  /** One API call: the request it sent, if any, and how it settled. */
  datatype Call = Call(sent: Option<Request>, outcome: Outcome)

  /** `throw new Error(v)` */
  function ThrowError(v: Value): Outcome {
    Throw(Error(ErrorMessageOf(v)))
  }
}
