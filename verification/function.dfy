/** The `Function` class of function.ts: construction with defaults and id
    assignment, `toJson`, and the control flow of `call`. Fresh ids come from
    an injected supply `uuid` read at increasing positions; the HTTP transport
    is an injected function from request to outcome. */
module Functions {
  import opened Wrappers
  import opened Values
  import opened Template
  import opened Config
  import opened Errors
  import opened Validation
  import opened Request

  /** A constructed function definition, as stored. */
  datatype Function = Function(
    id: string,
    fnName: string,
    fnDescription: string,
    args: seq<Argument>,
    config: FunctionConfig,
    hint: string)

  /** The plain record `toJson` returns. */
  datatype FunctionJson = FunctionJson(
    id: string,
    fnName: string,
    fnDescription: string,
    args: seq<Argument>,
    hint: string,
    config: FunctionConfig)

  /** A string that `x || fallback` keeps: present and non-empty. */
  predicate Truthy(o: Option<string>) {
    o.Some? && o.value != ""
  }

  /** How many of the first `n` arguments need a fresh id. */
  function MissingIds(args: seq<Argument>, n: nat): nat
    requires n <= |args|
  {
    if n == 0 then 0
    else MissingIds(args, n - 1) + (if Truthy(args[n - 1].id) then 0 else 1)
  }

  /** Arguments needing an id draw strictly increasing supply positions. */
  lemma {:induction false} MissingIdsIncrease(args: seq<Argument>, i: nat, j: nat)
    requires i < j <= |args| && !Truthy(args[i].id)
    ensures MissingIds(args, i) < MissingIds(args, j)
  {
    if j > i + 1 {
      MissingIdsIncrease(args, i, j - 1);
    }
  }

  /** `args.map(arg => ({ ...arg, id: arg.id || crypto.randomUUID() }))`,
      drawing ids from the supply starting at position `next`. */
  function AssignIds(args: seq<Argument>, uuid: nat -> string, next: nat): (r: seq<Argument>)
    ensures |r| == |args|
    decreases |args|
  {
    if |args| == 0 then []
    else
      var a := args[0];
      var first := if Truthy(a.id) then a else a.(id := Some(uuid(next)));
      [first] + AssignIds(args[1..], uuid, if Truthy(a.id) then next else next + 1)
  }

  /** An argument keeps a non-empty id and otherwise gets the supply's value
      at the next unused position, in argument order; nothing else about an
      argument changes. */
  lemma {:induction false} AssignIdsSpec(args: seq<Argument>, uuid: nat -> string, next: nat)
    ensures var r := AssignIds(args, uuid, next);
      && (forall i :: 0 <= i < |args| ==>
            r[i].name == args[i].name && r[i].description == args[i].description && r[i].argType == args[i].argType)
      && (forall i :: 0 <= i < |args| && Truthy(args[i].id) ==> r[i].id == args[i].id)
      && (forall i :: 0 <= i < |args| && !Truthy(args[i].id) ==> r[i].id == Some(uuid(next + MissingIds(args, i))))
    decreases |args|
  {
    forall i | 0 <= i < |args|
      ensures var r := AssignIds(args, uuid, next);
        && r[i].name == args[i].name && r[i].description == args[i].description && r[i].argType == args[i].argType
        && (Truthy(args[i].id) ==> r[i].id == args[i].id)
        && (!Truthy(args[i].id) ==> r[i].id == Some(uuid(next + MissingIds(args, i))))
    {
      AssignIdsAt(args, uuid, next, i);
    }
  }

  /** The argument at one position, by induction on the position. */
  lemma {:induction false} AssignIdsAt(args: seq<Argument>, uuid: nat -> string, next: nat, i: nat)
    requires i < |args|
    ensures var r := AssignIds(args, uuid, next);
      && r[i].name == args[i].name && r[i].description == args[i].description && r[i].argType == args[i].argType
      && (Truthy(args[i].id) ==> r[i].id == args[i].id)
      && (!Truthy(args[i].id) ==> r[i].id == Some(uuid(next + MissingIds(args, i))))
    decreases i
  {
    if i > 0 {
      var next' := if Truthy(args[0].id) then next else next + 1;
      AssignIdsAt(args[1..], uuid, next', i - 1);
      ShiftMissingIdsAt(args, i - 1);
      assert args[1..][i - 1] == args[i];
      assert AssignIds(args, uuid, next)[i] == AssignIds(args[1..], uuid, next')[i - 1];
    }
  }

  /** Counting missing ids past the first argument. */
  lemma {:induction false} ShiftMissingIdsAt(args: seq<Argument>, i: nat)
    requires i < |args|
    ensures MissingIds(args, i + 1) == MissingIds(args[1..], i) + (if Truthy(args[0].id) then 0 else 1)
  {
    if i > 0 {
      ShiftMissingIdsAt(args, i - 1);
      assert args[1..][i - 1] == args[i];
    }
  }

  /** The constructor: arguments get ids first, in order, then the function
      itself gets `id` when non-empty or the next fresh id; the configuration
      is completed with the defaults. Also returns the next unused supply
      position. */
  function Construct(fnName: string, fnDescription: string, args: seq<Argument>, config: FunctionConfig,
                     hint: string, id: Option<string>, uuid: nat -> string, next: nat): (r: (Function, nat))
    ensures r.0.fnName == fnName && r.0.fnDescription == fnDescription && r.0.hint == hint
    ensures r.0.args == AssignIds(args, uuid, next)
    ensures r.0.config == WithDefaults(config)
    ensures Truthy(id) ==> r.0.id == id.value
    ensures !Truthy(id) ==> r.0.id == uuid(next + MissingIds(args, |args|))
    ensures r.1 == next + MissingIds(args, |args|) + (if Truthy(id) then 0 else 1)
  {
    var after := next + MissingIds(args, |args|);
    var fid := if Truthy(id) then id.value else uuid(after);
    (Function(fid, fnName, fnDescription, AssignIds(args, uuid, next), WithDefaults(config), hint),
     if Truthy(id) then after else after + 1)
  }

  /** With an injective supply, every id the constructor generates is
      distinct from every other generated id: two arguments constructed
      without ids never share one, and neither shares the function's. */
  lemma FreshIdsDistinct(fnName: string, fnDescription: string, args: seq<Argument>, config: FunctionConfig,
                         hint: string, id: Option<string>, uuid: nat -> string, next: nat)
    requires forall a: nat, b: nat :: uuid(a) == uuid(b) ==> a == b
    ensures var f := Construct(fnName, fnDescription, args, config, hint, id, uuid, next).0;
      && (forall i, j :: 0 <= i < j < |args| && !Truthy(args[i].id) && !Truthy(args[j].id) ==>
            f.args[i].id != f.args[j].id)
      && (forall i :: 0 <= i < |args| && !Truthy(args[i].id) && !Truthy(id) ==> f.args[i].id != Some(f.id))
  {
    AssignIdsSpec(args, uuid, next);
    forall i, j | 0 <= i < j < |args| && !Truthy(args[i].id)
      ensures MissingIds(args, i) < MissingIds(args, j)
    {
      MissingIdsIncrease(args, i, j);
    }
    forall i | 0 <= i < |args| && !Truthy(args[i].id)
      ensures MissingIds(args, i) < MissingIds(args, |args|)
    {
      MissingIdsIncrease(args, i, |args|);
    }
  }

  /** `toJson`: the stored fields as a plain record. */
  function ToJson(f: Function): (j: FunctionJson)
    ensures j.id == f.id && j.fnName == f.fnName && j.fnDescription == f.fnDescription
    ensures j.args == f.args && j.hint == f.hint && j.config == f.config
  {
    FunctionJson(f.id, f.fnName, f.fnDescription, f.args, f.hint, f.config)
  }

  /** Reconstruction from a serialised record, passing its id back in: a
      non-empty serialised id is kept, and the configuration gets the
      defaults again. */
  function FromJson(j: FunctionJson, uuid: nat -> string, next: nat): (r: (Function, nat))
    ensures r.0.fnName == j.fnName && r.0.fnDescription == j.fnDescription && r.0.hint == j.hint
    ensures j.id != "" ==> r.0.id == j.id
    ensures j.id == "" ==> r.0.id == uuid(next + MissingIds(j.args, |j.args|))
    ensures r.0.config == WithDefaults(j.config)
    ensures r.0.args == AssignIds(j.args, uuid, next)
  {
    Construct(j.fnName, j.fnDescription, j.args, j.config, j.hint, Some(j.id), uuid, next)
  }

  /** What every constructed function satisfies when the supply never yields
      an empty id: all ids are non-empty and the defaults are in place. */
  predicate Stored(f: Function) {
    && f.id != ""
    && (forall i :: 0 <= i < |f.args| ==> Truthy(f.args[i].id))
    && f.config == WithDefaults(f.config)
  }

  /** A constructed function is in stored form. */
  lemma ConstructedIsStored(fnName: string, fnDescription: string, args: seq<Argument>, config: FunctionConfig,
                            hint: string, id: Option<string>, uuid: nat -> string, next: nat)
    requires forall n: nat :: uuid(n) != ""
    ensures Stored(Construct(fnName, fnDescription, args, config, hint, id, uuid, next).0)
  {
    AssignIdsSpec(args, uuid, next);
    WithDefaultsIdempotent(config);
  }

  /** Re-assigning ids leaves arguments that all carry ids untouched. */
  lemma AssignIdsKeepsIds(args: seq<Argument>, uuid: nat -> string, next: nat)
    requires forall i :: 0 <= i < |args| ==> Truthy(args[i].id)
    ensures AssignIds(args, uuid, next) == args
  {
  }

  /** Serialising and reconstructing a stored function gives the same
      function back, with the same ids, and draws no fresh id. */
  lemma RoundTrip(f: Function, uuid: nat -> string, next: nat)
    requires Stored(f)
    ensures FromJson(ToJson(f), uuid, next) == (f, next)
  {
    AssignIdsKeepsIds(f.args, uuid, next);
    assert MissingIds(f.args, |f.args|) == 0 by {
      MissingIdsZero(f.args, |f.args|);
    }
  }

  lemma {:induction false} MissingIdsZero(args: seq<Argument>, n: nat)
    requires n <= |args|
    requires forall i :: 0 <= i < |args| ==> Truthy(args[i].id)
    ensures MissingIds(args, n) == 0
  {
    if n > 0 {
      MissingIdsZero(args, n - 1);
    }
  }

  // ---------------------------------------------------------------------
  // call
  // ---------------------------------------------------------------------

  /** What `fetch` and `response.json()` produce: a response with its status
      and decoded body (or the decoding error's text), or a thrown error. */
  datatype Response = Response(ok: bool, statusText: string, body: Result<Value, string>)
  datatype FetchOutcome = Responded(response: Response) | Thrown(shown: string)

  /** What one call does: the request dispatched (if any), the feedback
      messages logged, and the value returned or the error raised. */
  datatype Trace = Trace(dispatched: Option<Request>, feedback: seq<string>, result: Result<Value, CallError>)

  /** `{ response: r, ...argDict }`: the arguments win over `response`. */
  function FeedbackEnv(response: Value, env: Env): (r: Env)
    ensures r.Keys == env.Keys + {"response"}
    ensures forall k :: k in env ==> r[k] == env[k]
    ensures "response" !in env ==> r["response"] == response
  {
    map["response" := response] + env
  }

  /** The outcome of the `try` body before any feedback: a non-ok status
      raises `Request failed`, a thrown transport or decoding error is
      re-raised as is, and otherwise the decoded body is the result. */
  function DispatchOutcome(o: FetchOutcome): (r: Result<Value, CallError>)
    ensures o.Thrown? ==> r == Failure(TransportError(o.shown))
    ensures o.Responded? && !o.response.ok ==> r == Failure(RequestFailed(o.response.statusText))
    ensures o.Responded? && o.response.ok ==>
      (r.Success? <==> o.response.body.Success?) &&
      (r.Success? ==> r.value == o.response.body.value) &&
      (r.Failure? ==> r.error == DecodeError(o.response.body.error))
  {
    match o
    case Thrown(shown) => Failure(TransportError(shown))
    case Responded(resp) =>
      if !resp.ok then Failure(RequestFailed(resp.statusText))
      else
        match resp.body
        case Success(v) => Success(v)
        case Failure(shown) => Failure(DecodeError(shown))
  }

  /** The message logged for an outcome, when the matching feedback template
      is configured (non-empty): the template interpolated over the response
      body, or over the error's string form, together with the arguments. */
  function Feedback(config: FunctionConfig, outcome: Result<Value, CallError>, env: Env): (msgs: seq<string>)
    ensures |msgs| <= 1
    ensures outcome.Success? ==> (|msgs| == 1 <==> Truthy(config.successFeedback))
    ensures outcome.Failure? ==> (|msgs| == 1 <==> Truthy(config.errorFeedback))
  {
    match outcome
    case Success(body) =>
      if Truthy(config.successFeedback)
      then [Interpolate(config.successFeedback.value, FeedbackEnv(body, env))]
      else []
    case Failure(e) =>
      if Truthy(config.errorFeedback)
      then [Interpolate(config.errorFeedback.value, FeedbackEnv(Str(ErrorText(e)), env))]
      else []
  }

  /** `call`: validation and request preparation run outside the `try`, so
      their errors reach the caller with no request sent and no feedback.
      Otherwise the prepared request is dispatched once, the transport's
      result or error is what the caller sees, and the feedback for that
      outcome is logged before the call settles. */
  function Call(f: Function, values: seq<Value>, transport: Request -> FetchOutcome): (t: Trace)
    ensures ValidateArgs(f.args, values).Failure? ==>
      t == Trace(None, [], Failure(ValidateArgs(f.args, values).error))
    ensures ValidateArgs(f.args, values).Success? ==>
      t.dispatched == Some(PrepareRequest(f.config, ValidateArgs(f.args, values).value))
    ensures t.dispatched.Some? ==> t.result == DispatchOutcome(transport(t.dispatched.value))
    ensures t.dispatched.Some? ==> t.feedback == Feedback(f.config, t.result, ValidateArgs(f.args, values).value)
  {
    match ValidateArgs(f.args, values)
    case Failure(e) => Trace(None, [], Failure(e))
    case Success(env) =>
      var req := PrepareRequest(f.config, env);
      var outcome := DispatchOutcome(transport(req));
      Trace(Some(req), Feedback(f.config, outcome, env), outcome)
  }

  /** A call with the wrong number of values fails with the arity error,
      whatever the values' types, and never reaches the transport. */
  lemma ArityCheckedFirst(f: Function, values: seq<Value>, transport: Request -> FetchOutcome)
    requires |values| != |f.args|
    ensures Call(f, values, transport) == Trace(None, [], Failure(ArityError(|f.args|, |values|)))
  {
  }

  /** A transport failure is re-raised unchanged after the error feedback,
      rendered over the error's string form, has been logged. */
  lemma TransportErrorReraised(f: Function, values: seq<Value>, transport: Request -> FetchOutcome,
                                env: Env, shown: string)
    requires ValidateArgs(f.args, values) == Success(env)
    requires transport(PrepareRequest(f.config, env)) == Thrown(shown)
    ensures var t := Call(f, values, transport);
      && t.result == Failure(TransportError(shown))
      && (Truthy(f.config.errorFeedback) ==>
            t.feedback == [Interpolate(f.config.errorFeedback.value, FeedbackEnv(Str(shown), env))])
      && (!Truthy(f.config.errorFeedback) ==> t.feedback == [])
  {
  }

  /** A response with a non-success status raises `Request failed: <status>`,
      after the error feedback, rendered over that error's string form
      `Error: Request failed: <status>`, has been logged; the body is never
      read. */
  lemma RequestFailedReraised(f: Function, values: seq<Value>, transport: Request -> FetchOutcome,
                              env: Env, status: string, body: Result<Value, string>)
    requires ValidateArgs(f.args, values) == Success(env)
    requires transport(PrepareRequest(f.config, env)) == Responded(Response(false, status, body))
    ensures var t := Call(f, values, transport);
      && t.result == Failure(RequestFailed(status))
      && (Truthy(f.config.errorFeedback) ==>
            t.feedback == [Interpolate(f.config.errorFeedback.value,
                                       FeedbackEnv(Str("Error: Request failed: " + status), env))])
      && (!Truthy(f.config.errorFeedback) ==> t.feedback == [])
  {
  }

  /** An ok response whose body does not decode re-raises the decoding error
      after the error feedback, rendered over that error's string form, has
      been logged. */
  lemma DecodeErrorReraised(f: Function, values: seq<Value>, transport: Request -> FetchOutcome,
                            env: Env, status: string, shown: string)
    requires ValidateArgs(f.args, values) == Success(env)
    requires transport(PrepareRequest(f.config, env)) == Responded(Response(true, status, Failure(shown)))
    ensures var t := Call(f, values, transport);
      && t.result == Failure(DecodeError(shown))
      && (Truthy(f.config.errorFeedback) ==>
            t.feedback == [Interpolate(f.config.errorFeedback.value, FeedbackEnv(Str(shown), env))])
      && (!Truthy(f.config.errorFeedback) ==> t.feedback == [])
  {
  }

  /** An ok response with a decodable body returns that body, after the
      success feedback, rendered over the body and the arguments, has been
      logged; no error feedback is produced. */
  lemma SuccessReturnsBody(f: Function, values: seq<Value>, transport: Request -> FetchOutcome,
                           env: Env, status: string, body: Value)
    requires ValidateArgs(f.args, values) == Success(env)
    requires transport(PrepareRequest(f.config, env)) == Responded(Response(true, status, Success(body)))
    ensures var t := Call(f, values, transport);
      && t.result == Success(body)
      && (Truthy(f.config.successFeedback) ==>
            t.feedback == [Interpolate(f.config.successFeedback.value, FeedbackEnv(body, env))])
      && (!Truthy(f.config.successFeedback) ==> t.feedback == [])
  {
  }

  /** In a feedback message, `{{response}}` shows the response (or error)
      unless an argument is itself named `response`, which then wins. */
  lemma ResponsePlaceholder(response: Value, env: Env)
    ensures "response" in env ==>
      Interpolate(Placeholder("response"), FeedbackEnv(response, env)) == Substitute(env, "response")
    ensures "response" !in env ==>
      Interpolate(Placeholder("response"), FeedbackEnv(response, env)) == Substitute(map["response" := response], "response")
  {
    assert IsWord("response");
    InterpolateHolePrefix("response", "", FeedbackEnv(response, env));
    assert Placeholder("response") + "" == Placeholder("response");
  }
}
