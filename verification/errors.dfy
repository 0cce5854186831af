/** The errors a call can raise to its caller, distinguishable by kind. */
module Errors {
  import opened Values

  datatype CallError =
    /** Wrong number of positional values: `Expected N arguments, got M`. */
    | ArityError(expected: nat, got: nat)
    /** A `string` or `array` argument received a value of another kind. */
    | TypeMismatch(argName: string, expectedType: string)
    /** The endpoint answered with a non-success status. */
    | RequestFailed(statusText: string)
    /** The transport itself threw; `shown` is the thrown error's string form. */
    | TransportError(shown: string)
    /** The response body was not valid JSON; `shown` is the error's string form. */
    | DecodeError(shown: string)

  /** The string form (`toString()`) of the thrown error object. */
  function ErrorText(e: CallError): (r: string)
    ensures e.ArityError? || e.RequestFailed? ==> |r| > 7 && r[..7] == "Error: "
    ensures e.TypeMismatch? ==> |r| > 11 && r[..11] == "TypeError: "
    ensures e.TransportError? || e.DecodeError? ==> r == e.shown
  {
    match e
    case ArityError(expected, got) =>
      "Error: Expected " + IntText(expected) + " arguments, got " + IntText(got)
    case TypeMismatch(name, tag) =>
      "TypeError: Argument " + name + (if tag == "string" then " must be a string" else " must be an array")
    case RequestFailed(status) => "Error: Request failed: " + status
    case TransportError(shown) => shown
    case DecodeError(shown) => shown
  }
}
