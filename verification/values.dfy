/** The JavaScript values that flow through a function call: argument values,
    payload template values and decoded response bodies. */
module Values {
  import opened Wrappers

  /** A JSON-like value. `Null` stands for both `null` and `undefined`;
      numbers are integers (fractional numbers are not modelled). */
  datatype Value =
    | Str(s: string)
    | Num(n: int)
    | Bool(b: bool)
    | Arr(items: seq<Value>)
    | Obj(fields: seq<(string, Value)>)
    | Null

  /** A name-to-value record such as the per-call argument dictionary. */
  type Env = map<string, Value>

  function DigitChar(d: nat): char
    requires d < 10
  {
    "0123456789"[d]
  }

  /** Decimal digits of a natural number, most significant first. */
  function NatText(n: nat): (r: string)
    ensures |r| > 0
    ensures forall i :: 0 <= i < |r| ==> '0' <= r[i] <= '9'
  {
    if n < 10 then [DigitChar(n)] else NatText(n / 10) + [DigitChar(n % 10)]
  }

  /** `Number.prototype.toString` on an integer. */
  function IntText(n: int): string {
    if n < 0 then "-" + NatText(-n) else NatText(n)
  }

  /** Concatenation of `parts` separated by commas, as `Array.prototype.join` does. */
  function JoinWithCommas(parts: seq<string>): string {
    if |parts| == 0 then ""
    else if |parts| == 1 then parts[0]
    else parts[0] + "," + JoinWithCommas(parts[1..])
  }

  /** `v?.toString()`: the string form of a value, `None` for null/undefined.
      Arrays join their elements' string forms with commas (null elements
      become empty), and plain objects show as "[object Object]". */
  function Show(v: Value): Option<string> {
    match v
    case Str(s) => Some(s)
    case Num(n) => Some(IntText(n))
    case Bool(b) => Some(if b then "true" else "false")
    case Arr(items) =>
      Some(JoinWithCommas(seq(|items|, i requires 0 <= i < |items| =>
        match Show(items[i]) case Some(t) => t case None => "")))
    case Obj(_) => Some("[object Object]")
    case Null => None
  }
}
