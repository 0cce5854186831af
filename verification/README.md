# Templated function invocation, modelled in Dafny

This project models the `Function` class of the Virtuals GAME TypeScript SDK
(`function.ts`): a named, callable capability with typed positional arguments,
a templated HTTP request (method, URL, headers, payload) and optional
success/error feedback messages. The model covers:

- **Argument validation** (`validateArgs`): the arity check, the
  name-to-value dictionary built by position, and the first-failure type check
  driven by the `type` tag (`string` and `array` are checked, every other tag
  accepts anything).
- **The `{{key}}` interpolator** (`interpolateTemplate`): a left-to-right scan
  for matches of `/\{\{(\w+)\}\}/g`, each replaced by
  `values[key]?.toString() || match`.
- **Request assembly** (`prepareRequest`): URL interpolation, the `GET`
  fallback for the method, headers passed through, and the two-tier payload
  rule (a string whose brace-stripped form names an argument becomes that
  argument's raw value; any other string is interpolated; non-strings are
  copied under their original key).
- **Construction and serialisation**: defaults merged under the caller's
  configuration, ids kept or drawn from a fresh-id supply, `toJson`, and the
  reconstruction round trip.
- **`call`**: validation and preparation outside the `try`, one dispatch
  through an injected transport, feedback rendered over
  `{response, ...argDict}`, and every failure re-raised.

Files (one module each, `examples.dfy` holds two):

| file | module | what |
|---|---|---|
| wrappers.dfy | Wrappers | `Option`, `Result` |
| values.dfy | Values | JavaScript values and their `toString` |
| template.dfy | Template | the interpolator and a segment-based reference semantics |
| entries.dfy | Entries | plain objects as ordered property lists; property assignment |
| config.dfy | Config | `FunctionConfig` and the constructor's defaults |
| errors.dfy | Errors | the errors a call raises and their string forms |
| validation.dfy | Validation | `FunctionArgument`, `validateArgs` |
| request.dfy | Request | brace stripping, the payload builder, `prepareRequest` |
| function.dfy | Functions | constructor, `toJson`, `call` |
| examples.dfy | TemplateExamples, CallExamples | concrete cases of interpolation, payload building and validation |

Modelling choices:

- `Value` is `Str | Num | Bool | Arr | Obj | Null`; `Null` stands for both
  `null` and `undefined` (whose `?.toString()` is `undefined`). `Show` is
  `toString`: arrays join their elements with commas, plain objects show as
  `[object Object]`, numbers are integers in decimal.
- A JavaScript object (the payload template and the built payload) is an
  ordered list of `(key, value)` pairs in `Object.entries` order. Assigning to
  an existing key changes its value in place, and a new key is appended.
- Optional properties are `Option`s; `None` is an absent property.
- `crypto.randomUUID` is an injected supply `uuid: nat -> string` read at
  increasing positions. `Construct` returns the next unused position.
- `fetch` and `response.json()` are an injected function
  `transport: Request -> FetchOutcome`. The outcome is a response (ok flag,
  status text, decoded body or decoding error) or a thrown error.
  `console.log` becomes the `feedback` list of the call's `Trace`.
- An error passed to a feedback template as `response` is seen through its
  string form (`Error: Request failed: …` and so on). Interpolation only
  ever looks at that form.

Details of `function.ts` the model keeps:

- The constructor's default method is lowercase `'get'` (function.ts:42).
  `'GET'` appears only as the fallback in `prepareRequest` for a falsy method
  (function.ts:116).
- `toJson` returns the fields `id`, `fn_name`, `fn_description`, `args`,
  `hint` and `config` (function.ts:53-62).
- A placeholder is left in place not only when the key is absent, but also
  when the value is `null`/`undefined` or its string form is empty (`|| match`,
  function.ts:94).
- Construction keeps a supplied id only when it is non-empty (`arg.id ||`,
  `id ||`, function.ts:40 and 50). An empty id is replaced by a fresh one.
- Reconstruction from `toJson` output reproduces the function only in stored
  form. That means non-empty ids and defaults already applied. `RoundTrip`
  assumes this, and `ConstructedIsStored` shows every constructed function
  satisfies it when the supply never yields an empty id.

## Model

| member | source | states |
|---|---|---|
| Template.KeyAtSound | function.ts:94 | a match found at the start of a text is a `{{word}}` placeholder: two opening braces, a non-empty run of `\w` characters, two closing braces |
| Template.KeyAtComplete | function.ts:94 | every placeholder at a position is the one the scan finds there, so the greedy `\w+` match at a position is unique |
| Template.Resolve | function.ts:94 | a key yields replacement text exactly when it is present, its value is not null/undefined and its string form is non-empty, and the text is that string form |
| Template.InterpolateAssembled | function.ts:94 | on every template made of well-formed text and `{{word}}` holes, interpolation keeps all text and replaces each hole by its value's string form, leaving `{{key}}` verbatim when it does not resolve; text may be literal, holding single braces (`{"q":`) or brace pairs around non-words (`{{a-b}}`), and text right before a hole need only hold no placeholder of its own, so it may end in braces (`{` before `{{x}}`) |
| Template.InterpolateAssembledTail | function.ts:94 | the same for a well-formed template followed by any text holding no placeholder, which is kept as it is, so trailing braces (`{{x}} {`, `{{x}}}`) are covered too |
| Template.TextBeforeHole | function.ts:94 | text holding no placeholder of its own, followed by `{{`, is copied through unchanged even when it ends in braces, because the scan can find no match starting inside it |
| Template.InterpolateHolePrefix | function.ts:94 | a leading `{{word}}` is replaced by its substitution and scanning resumes after it |
| Template.InterpolateTextPrefix | function.ts:94 | literal text, in which no placeholder can start whatever follows it, is copied through unchanged and scanning continues after it |
| Template.InterpolateLiteral | function.ts:94 | literal text comes back unchanged |
| Template.InterpolateNoPlaceholder | function.ts:94 | a template containing no `{{word}}` placeholder comes back unchanged whatever the values |
| Template.InterpolateUnresolved | function.ts:94 | when no key resolves (absent, null/undefined or empty string form), every template comes back unchanged |
| Template.NonWordKeyUntouched | function.ts:94 | `{{key}}` with a non-word key containing no braces (such as `a-b` or the empty key) is never touched, even when the key has a value |
| TemplateExamples.QueryStringExample | function.ts:94 | `id={{x}}&y={{y}}` with x = 5 and y = "a" renders as `id=5&y=a` |
| TemplateExamples.MissingKeyExample | function.ts:94 | `hello {{name}}` over an empty mapping stays `hello {{name}}` |
| TemplateExamples.HyphenKeyExample | function.ts:94 | `{{a-b}}` stays `{{a-b}}` even when `a-b` has a value |
| TemplateExamples.HyphenBesideHoleExample | function.ts:94 | `{{a-b}}{{x}}` with x = "a" renders as `{{a-b}}a` |
| TemplateExamples.JsonTextExample | function.ts:94 | `{"q":"{{x}}"}` with x = "a" renders as `{"q":"a"}` |
| TemplateExamples.BraceBeforeHoleExample | function.ts:94 | `{{{x}}}` with x = "a" renders as `{a}`: the match starts at the second brace |
| TemplateExamples.BraceAfterHoleExample | function.ts:94 | `{{x}} {` with x = "a" renders as `a {` |
| Validation.Bind | function.ts:69-74 | the dictionary's keys are exactly the declared names, and each name maps to the value at the last position declaring it |
| Validation.FirstMismatch | function.ts:71-87 | finds the first position, in declared order, whose value its type tag rejects; all earlier positions are accepted, and none means every position is accepted |
| Validation.ValidateArgs | function.ts:64-91 | fails with the arity error exactly when the counts differ, whatever the types; otherwise succeeds exactly when every value is accepted (`string` needs a string, `array` an array, other tags accept anything); otherwise reports the first rejected argument by name and tag; on success returns the positional dictionary |
| Validation.ValidatedDictionary | function.ts:69-90 | with distinct names, a successful validation maps exactly the declared names, each to the value at its own position |
| CallExamples.StringArgumentExample | function.ts:77-80 | a `string` argument given a number fails with a type mismatch naming that argument |
| Entries.Put | function.ts:106-111 | assigning a property sets that key, leaves every other key's value and the property order unchanged, appends a new key last, and keeps keys unique |
| Config.WithDefaults | function.ts:41-48 | every property the caller supplied wins; absent method, headers, payload, headersString and payloadString get `'get'`, `{}`, `{}`, `'{}'`, `'{}'`; nothing else is filled in |
| Config.WithDefaultsIdempotent | function.ts:41-48 | applying the defaults to a stored configuration changes nothing |
| Request.StripBraces | function.ts:104 | stripping removes at most two characters |
| Request.StripBracesWraps | function.ts:104 | stripping drops exactly one leading `{` and one trailing `}` when present: putting them back gives the original string |
| Request.StripBracesReference | function.ts:104 | `{name}`, `{name` and `name}` strip to `name`, and a bare name without edge braces strips to itself |
| Request.StripBracesDouble | function.ts:104 | `{{name}}` strips only to `{name}` |
| Request.BuildPayload | function.ts:100-113 | the payload has unique keys, no more entries than the template, a property for every template entry's resolved key, and under each key the value of the last entry resolving to it |
| Request.PayloadKeysFromTemplate | function.ts:100-113 | every payload property comes from some template entry |
| Request.PayloadInTemplateOrder | function.ts:100-113 | with distinct resolved keys, the payload lists exactly the resolved entries, in template order |
| Request.PayloadReference | function.ts:103-106 | a string value whose brace-stripped form names an argument (`{name}`, `{name`, `name}` or a bare `name`) puts that argument's raw value, of whatever type, under the interpolated key |
| Request.PayloadText | function.ts:107-108 | a string value whose stripped form names no argument is interpolated and put under the interpolated key |
| Request.PayloadVerbatim | function.ts:110-111 | a non-string value is copied unchanged under its original, un-interpolated key |
| CallExamples.ArrayReferenceExample | function.ts:103-106 | `{amount}` with amount = [1, 2, 3] puts the array itself in the payload |
| CallExamples.TextPayloadExample | function.ts:107-108 | `total: {{amount}}` with amount = 5 becomes the string `total: 5` |
| Request.PrepareRequest | function.ts:97-121 | the method is never empty: the configured one when non-empty, otherwise `GET`; the URL is the interpolated URL template, or empty when absent; headers pass through uninterpolated; the body is the built payload |
| Request.StaticUrl | function.ts:98 | a configured URL without placeholders is sent exactly as configured |
| Functions.AssignIds | function.ts:40 | there is exactly one resulting argument per given argument |
| Functions.AssignIdsSpec | function.ts:40 | names, descriptions and type tags are kept; a non-empty id is kept; a missing or empty id becomes the supply's value at the next unused position, in argument order |
| Functions.Construct | function.ts:30-51 | the name, description and hint are kept; the arguments get their ids; the configuration gets its defaults; the function id is the given non-empty id or the next fresh one after the arguments'; the supply advances by the number of ids drawn |
| Functions.FreshIdsDistinct | function.ts:40-50 | with an injective supply, no two generated argument ids coincide and none equals a generated function id |
| Functions.ConstructedIsStored | function.ts:30-51 | a constructed function has non-empty ids everywhere and its defaults in place when the supply never yields an empty id |
| Functions.ToJson | function.ts:53-62 | the record carries exactly the stored id, name, description, arguments, hint and configuration |
| Functions.FromJson | function.ts:30-51 | reconstruction keeps the name, description and hint, keeps a non-empty serialised id (an empty one is replaced by the next fresh id), re-assigns argument ids and re-applies the defaults |
| Functions.RoundTrip | function.ts:53-62 | reconstructing a stored function from its `toJson` record gives the same function with the same ids and draws no fresh id |
| Functions.FeedbackEnv | function.ts:138-140 | the feedback mapping has the argument names plus `response`; argument values win, and `response` is the response only when no argument has that name |
| Functions.DispatchOutcome | function.ts:128-134 | a thrown transport error is re-raised as is, a non-ok status raises `Request failed` with the status text, an undecodable body raises the decoding error, and otherwise the decoded body is the result |
| Errors.ErrorText | function.ts:131 | an error's string form starts with its class name: `Error: ` for the arity error and a failed status (`new Error`, also at function.ts:66), `TypeError: ` for a type mismatch (function.ts:79 and 84); a thrown or decoding error is shown as it was |
| Functions.Feedback | function.ts:136-154 | at most one message is logged: a success logs one exactly when the success template is non-empty, a failure exactly when the error template is |
| Functions.Call | function.ts:123-157 | validation failures reach the caller with no request and no feedback; otherwise the prepared request is dispatched once, the caller sees the transport's outcome, and the feedback for that outcome is logged |
| Functions.ArityCheckedFirst | function.ts:65-67 | a call with the wrong number of values fails with the arity error and never reaches the transport |
| Functions.TransportErrorReraised | function.ts:146-156 | a thrown transport error is re-raised unchanged after the error feedback, rendered over the error's string form and the arguments, is logged |
| Functions.RequestFailedReraised | function.ts:130-131 | a non-ok status raises `Request failed` with the status text, after the error feedback, rendered over `Error: Request failed: <status>` and the arguments, is logged |
| Functions.DecodeErrorReraised | function.ts:134 | an undecodable ok body re-raises the decoding error after the error feedback, rendered over that error's string form and the arguments, is logged |
| Functions.SuccessReturnsBody | function.ts:134-145 | an ok response with a decodable body returns that body after the success feedback, rendered over the body and the arguments, is logged |
| Functions.ResponsePlaceholder | function.ts:138-141 | in feedback, `{{response}}` shows the response unless an argument named `response` overrides it |

## Left out

- `game.ts` and `agent.ts`: remote API wrappers and an agent facade that only pass data along. They are not part of this model.
- The network (`fetch`), the body's JSON text encoding (`JSON.stringify`) and JSON decoding are not modelled. The transport is an injected function, and the body is the structured payload.
- `console.log` is not modelled as output. The logged messages are collected in the call's trace instead.
- `crypto.randomUUID` is replaced by an injected id supply. Randomness and global uniqueness are not modelled, so distinctness is proved only for an injective supply.
- Asynchrony and concurrency are not modelled. `call` is a single sequential evaluation.
- JavaScript prototype lookups are not modelled. `in` and `values[key]` see only own properties, so names such as `toString` are not found on the prototype chain.
- Fractional numbers are not modelled. `Num` holds integers, and their string form is the plain decimal form.
- JavaScript numbers are doubles, and the model's integers are unbounded. Integers above 2^53 are not exact in JavaScript, and the model keeps them exact.
- Values.IntText: the string form is always plain decimal digits. JavaScript switches to exponent form from 1e21 on (`(1e21).toString()` is `"1e+21"`), so for such numbers the model's digits differ from what the source would substitute.
- Functions.Feedback: its contract fixes how many messages are logged, not their text. The text of each message is stated per outcome by `SuccessReturnsBody`, `TransportErrorReraised`, `RequestFailedReraised` and `DecodeErrorReraised`.
- Template.Interpolate and Request.ResolveEntry carry no contract of their own. Their behaviour is stated by the lemmas about them: `InterpolateAssembled`, `InterpolateHolePrefix`, `InterpolateTextPrefix` and the other `Interpolate…` lemmas for the first, `PayloadReference`, `PayloadText` and `PayloadVerbatim` for the second.
- Integer-like payload keys are not modelled. JavaScript lists them before other keys, but the ordered property list keeps insertion order for every key.
- An explicitly `undefined` configuration property is not modelled. The spread would copy it over a default, but it is treated the same as an absent one.
- Functions.Call: a success-feedback rendering that throws is not modelled. The source would then log the error feedback and re-raise. In the model, interpolation and `toString` never throw.
- Other `FunctionConfig` properties are carried and serialised, but no core logic reads them. These are `isMainLoop`, `isReaction`, `headersString`, `payloadString` and `platform`.
