// src/utils/apiErrors.js: `getApiErrorMessage`, one `??` chain over the body
// of an error response.

module ApiErrors {
  import opened Js

  const DefaultFallback := "An error occurred"

  /** `errors?.[0]?.message`. Indexing an object reads its property "0";
      the first element of a string or any property of a number or boolean
      has no `message`. */
  function FirstMessage(errors: Value): Value {
    match errors
    case Arr(items) => if |items| > 0 then OptGet(items[0], "message") else Undefined
    case Obj(fields) => OptGet(OptGet(errors, "0"), "message")
    case _ => Undefined
  }

  /** `getApiErrorMessage(data, fallback = "An error occurred")`: the first
      structured error's message, else the top-level message, else the
      fallback; only null and undefined fall through. */
  function ApiErrorMessage(data: Value, fallback: Value): (r: Value)
    ensures !Nullish(FirstMessage(OptGet(data, "errors"))) ==>
      r == FirstMessage(OptGet(data, "errors"))
    ensures Nullish(FirstMessage(OptGet(data, "errors"))) && !Nullish(OptGet(data, "message")) ==>
      r == OptGet(data, "message")
    ensures Nullish(FirstMessage(OptGet(data, "errors"))) && Nullish(OptGet(data, "message")) ==>
      r == if fallback.Undefined? then Str(DefaultFallback) else fallback
    ensures !fallback.Null? ==> !Nullish(r)
  {
    var fb := if fallback.Undefined? then Str(DefaultFallback) else fallback;
    Coalesce(FirstMessage(OptGet(data, "errors")), Coalesce(OptGet(data, "message"), fb))
  }

  /** A body `{errors: [{message: m}, ...]}` with a non-null message gives `m`,
      whatever else the body holds. */
  lemma FirstErrorWins(data: Value, m: Value, rest: seq<Value>, fallback: Value)
    requires data.Obj? && "errors" in data.fields
    requires data.fields["errors"] == Arr([Obj(map["message" := m])] + rest)
    requires !Nullish(m)
    ensures ApiErrorMessage(data, fallback) == m
  {
    assert FirstMessage(OptGet(data, "errors")) == m;
  }

  /** The message is not replaced when it is the empty string: `??` only
      falls through on null and undefined. */
  lemma EmptyMessageKept(data: Value, fallback: Value)
    requires data == Obj(map["errors" := Arr([Obj(map["message" := Str("")])])])
    ensures ApiErrorMessage(data, fallback) == Str("")
  {
    FirstErrorWins(data, Str(""), [], fallback);
  }

  /** An empty error list falls through to the top-level message. */
  lemma EmptyErrorsFallThrough(data: Value, fallback: Value)
    requires data.Obj? && "errors" in data.fields && data.fields["errors"] == Arr([])
    ensures ApiErrorMessage(data, fallback) ==
      if !Nullish(OptGet(data, "message")) then OptGet(data, "message")
      else if fallback.Undefined? then Str(DefaultFallback) else fallback
  {
  }

  /** A null or undefined body yields the fallback, "An error occurred" by default. */
  lemma NullishDataGivesFallback(data: Value, fallback: Value)
    requires Nullish(data)
    ensures ApiErrorMessage(data, fallback) ==
      if fallback.Undefined? then Str(DefaultFallback) else fallback
  {
  }
}
