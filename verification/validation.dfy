/** Declared arguments and the per-call validation that turns positional
    values into a name-to-value dictionary (`validateArgs`, function.ts). */
module Validation {
  import opened Wrappers
  import opened Values
  import opened Errors

  /** One declared argument. `argType` is the source's free-form type tag;
      `id` is `None` when the caller gave none. */
  datatype Argument = Argument(name: string, description: string, argType: string, id: Option<string>)

  /** The set of declared argument names. */
  function Names(args: seq<Argument>): (names: set<string>)
    ensures forall i :: 0 <= i < |args| ==> args[i].name in names
  {
    if |args| == 0 then {}
    else
      var n := |args| - 1;
      assert forall i :: 0 <= i < n ==> args[..n][i] == args[i];
      Names(args[..n]) + {args[n].name}
  }

  /** No two declared arguments share a name. */
  predicate DistinctNames(args: seq<Argument>) {
    forall i, j :: 0 <= i < j < |args| ==> args[i].name != args[j].name
  }

  /** No later argument reuses the name of argument `i`, so the value at
      position `i` is the one the dictionary keeps. */
  predicate LastWithName(args: seq<Argument>, i: nat)
    requires i < |args|
  {
    forall j :: i < j < |args| ==> args[j].name != args[i].name
  }

  /** The runtime type check of the `switch` on the declared tag: `string`
      needs a string, `array` needs an array, any other tag accepts anything. */
  predicate Accepts(tag: string, v: Value) {
    if tag == "string" then v.Str?
    else if tag == "array" then v.Arr?
    else true
  }

  /** A name is declared exactly when some argument carries it. */
  lemma {:induction false} NamesMembers(args: seq<Argument>, x: string)
    ensures x in Names(args) <==> exists i :: 0 <= i < |args| && args[i].name == x
  {
    if |args| > 0 {
      var n := |args| - 1;
      NamesMembers(args[..n], x);
      assert forall i :: 0 <= i < n ==> args[..n][i] == args[i];
    }
  }

  /** The dictionary built by assigning `dict[args[i].name] = values[i]` for
      i = 0, 1, …; a repeated name keeps its last value. */
  function Bind(args: seq<Argument>, values: seq<Value>): (dict: Env)
    requires |args| == |values|
    ensures dict.Keys == Names(args)
    ensures forall i :: 0 <= i < |args| && LastWithName(args, i) ==> dict[args[i].name] == values[i]
  {
    if |args| == 0 then map[]
    else
      var n := |args| - 1;
      var prefix := Bind(args[..n], values[..n]);
      var dict := prefix[args[n].name := values[n]];
      assert forall i :: 0 <= i < n && LastWithName(args, i) ==> dict[args[i].name] == values[i] by {
        forall i | 0 <= i < n && LastWithName(args, i) ensures dict[args[i].name] == values[i] {
          assert args[..n][i] == args[i];
          assert LastWithName(args[..n], i);
          assert values[..n][i] == values[i];
        }
      }
      dict
  }

  /** The first position at or after `from` whose value the declared type
      rejects, scanning in declared order. */
  function FirstMismatch(args: seq<Argument>, values: seq<Value>, from: nat): (r: Option<nat>)
    requires |args| == |values| && from <= |args|
    ensures r.Some? ==> from <= r.value < |args| && !Accepts(args[r.value].argType, values[r.value])
    ensures r.Some? ==> forall j :: from <= j < r.value ==> Accepts(args[j].argType, values[j])
    ensures r.None? ==> forall j :: from <= j < |args| ==> Accepts(args[j].argType, values[j])
    decreases |args| - from
  {
    if from == |args| then None
    else if !Accepts(args[from].argType, values[from]) then Some(from)
    else FirstMismatch(args, values, from + 1)
  }

  /** `validateArgs`: the arity check comes first; then the values are type
      checked in declared order and the first rejected one is reported by
      name and declared type; otherwise the name-to-value dictionary. */
  function ValidateArgs(args: seq<Argument>, values: seq<Value>): (r: Result<Env, CallError>)
    ensures |values| != |args| <==> r.Failure? && r.error.ArityError?
    ensures r.Failure? && r.error.ArityError? ==> r.error == ArityError(|args|, |values|)
    ensures r.Success? <==>
      |values| == |args| && forall i :: 0 <= i < |args| ==> Accepts(args[i].argType, values[i])
    ensures r.Failure? && r.error.TypeMismatch? ==>
      exists i :: 0 <= i < |args| && |values| == |args|
        && !Accepts(args[i].argType, values[i])
        && (forall j :: 0 <= j < i ==> Accepts(args[j].argType, values[j]))
        && r.error == TypeMismatch(args[i].name, args[i].argType)
    ensures r.Failure? ==> r.error.ArityError? || r.error.TypeMismatch?
    ensures r.Success? ==> r.value == Bind(args, values)
  {
    if |values| != |args| then Failure(ArityError(|args|, |values|))
    else
      match FirstMismatch(args, values, 0)
      case Some(i) => Failure(TypeMismatch(args[i].name, args[i].argType))
      case None => Success(Bind(args, values))
  }

  /** With distinct names, a successful validation maps exactly the declared
      names, each to the value supplied at its position. */
  lemma ValidatedDictionary(args: seq<Argument>, values: seq<Value>)
    requires DistinctNames(args)
    requires ValidateArgs(args, values).Success?
    ensures ValidateArgs(args, values).value.Keys == Names(args)
    ensures forall i :: 0 <= i < |args| ==> ValidateArgs(args, values).value[args[i].name] == values[i]
  {
  }
}
