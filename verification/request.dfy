/** Request assembly (`prepareRequest`, function.ts): the URL and the payload
    are built from the configuration and the per-call argument dictionary. */
module Request {
  import opened Wrappers
  import opened Values
  import opened Template
  import opened Entries
  import opened Config

  /** What is handed to the transport. The body is the structured payload
      object (its JSON text encoding is not modelled). */
  datatype Request = Request(
    httpMethod: string,
    url: string,
    headers: Option<seq<(string, string)>>,
    body: Entries)

  /** `value.replace(/^\{|\}$/g, '')`: drops one leading `{` and one trailing
      `}` when present. */
  function StripBraces(s: string): (r: string)
    ensures |s| - 2 <= |r| <= |s|
  {
    var t := if |s| > 0 && s[0] == '{' then s[1..] else s;
    if |t| > 0 && t[|t| - 1] == '}' then t[..|t| - 1] else t
  }

  /** Stripping drops exactly one leading `{` and one trailing `}`, when
      present, and nothing else: putting the dropped braces back gives the
      original string. */
  lemma StripBracesWraps(s: string)
    ensures var lead := |s| > 0 && s[0] == '{';
      var trail := |s| > (if lead then 1 else 0) && s[|s| - 1] == '}';
      s == (if lead then "{" else "") + StripBraces(s) + (if trail then "}" else "")
  {
    var t := if |s| > 0 && s[0] == '{' then s[1..] else s;
    if |t| > 0 && t[|t| - 1] == '}' {
      assert t == t[..|t| - 1] + "}";
    }
    if |s| > 0 && s[0] == '{' {
      assert s == "{" + t;
    }
  }

  /** `{name}` strips to `name`; so do the one-sided `{name` and `name}`,
      and a bare name that neither starts with `{` nor ends with `}`. */
  lemma StripBracesReference(name: string)
    ensures StripBraces("{" + name + "}") == name
    ensures (|name| == 0 || name[|name| - 1] != '}') ==> StripBraces("{" + name) == name
    ensures (|name| == 0 || name[0] != '{') ==> StripBraces(name + "}") == name
    ensures (|name| == 0 || (name[0] != '{' && name[|name| - 1] != '}')) ==> StripBraces(name) == name
  {
  }

  /** `{{name}}` strips only to `{name}`, which is not a word. */
  lemma StripBracesDouble(name: string)
    ensures StripBraces("{{" + name + "}}") == "{" + name + "}"
  {
  }

  /** The property one payload template entry produces: a string value whose
      brace-stripped form names an argument becomes that argument's raw value;
      any other string value is interpolated; both go under the interpolated
      key. A non-string value is copied under the original key. */
  function ResolveEntry(key: string, value: Value, env: Env): (string, Value) {
    match value
    case Str(s) =>
      var name := StripBraces(s);
      (Interpolate(key, env), if name in env then env[name] else Str(Interpolate(s, env)))
    case _ => (key, value)
  }

  /** The entry template entry `i` resolves to. */
  function Resolved(template: Entries, env: Env, i: nat): (string, Value)
    requires i < |template|
  {
    ResolveEntry(template[i].0, template[i].1, env)
  }

  /** No later template entry resolves to the same key as entry `i`. */
  predicate LastWithKey(template: Entries, env: Env, i: nat)
    requires i < |template|
  {
    forall j :: i < j < |template| ==> Resolved(template, env, j).0 != Resolved(template, env, i).0
  }

  /** No two template entries resolve to the same key. */
  predicate DistinctResolvedKeys(template: Entries, env: Env) {
    forall i, j :: 0 <= i < j < |template| ==> Resolved(template, env, i).0 != Resolved(template, env, j).0
  }

  /** A prefix of the template resolves entry by entry as the whole does. */
  lemma PrefixResolved(template: Entries, env: Env, n: nat)
    requires n <= |template|
    ensures forall i :: 0 <= i < n ==> Resolved(template[..n], env, i) == Resolved(template, env, i)
  {
  }

  /** Assigning the last resolved entry to the payload built from the rest
      of the template keeps the payload's promises for the whole template. */
  lemma BuildPayloadStep(template: Entries, env: Env, n: nat, prefix: Entries)
    requires n + 1 == |template|
    requires forall i :: 0 <= i < n ==> Resolved(template[..n], env, i).0 in KeysOf(prefix)
    requires forall i :: 0 <= i < n && LastWithKey(template[..n], env, i) ==>
      Lookup(prefix, Resolved(template[..n], env, i).0) == Some(Resolved(template[..n], env, i).1)
    ensures var e := Resolved(template, env, n);
      var payload := Put(prefix, e.0, e.1);
      && (forall i :: 0 <= i < |template| ==> Resolved(template, env, i).0 in KeysOf(payload))
      && (forall i :: 0 <= i < |template| && LastWithKey(template, env, i) ==>
            Lookup(payload, Resolved(template, env, i).0) == Some(Resolved(template, env, i).1))
  {
    var e := Resolved(template, env, n);
    var payload := Put(prefix, e.0, e.1);
    PrefixResolved(template, env, n);
    forall i | 0 <= i < |template| ensures Resolved(template, env, i).0 in KeysOf(payload) {
      if i < n {
        assert Resolved(template[..n], env, i) == Resolved(template, env, i);
      }
    }
    forall i | 0 <= i < |template| && LastWithKey(template, env, i)
      ensures Lookup(payload, Resolved(template, env, i).0) == Some(Resolved(template, env, i).1)
    {
      if i < n {
        assert Resolved(template[..n], env, i) == Resolved(template, env, i);
        assert LastWithKey(template[..n], env, i);
        assert Resolved(template, env, i).0 != e.0;
      }
    }
  }

  /** The payload object built by assigning every resolved entry in template
      order. It is a well-formed object, has a property for every template
      entry, and each property holds the value of the last entry resolving to
      its key. */
  function BuildPayload(template: Entries, env: Env): (payload: Entries)
    ensures UniqueKeys(payload)
    ensures |payload| <= |template|
    ensures forall i :: 0 <= i < |template| ==> Resolved(template, env, i).0 in KeysOf(payload)
    ensures forall i :: 0 <= i < |template| && LastWithKey(template, env, i) ==>
      Lookup(payload, Resolved(template, env, i).0) == Some(Resolved(template, env, i).1)
  {
    if |template| == 0 then []
    else
      var n := |template| - 1;
      var prefix := BuildPayload(template[..n], env);
      var e := Resolved(template, env, n);
      var payload := Put(prefix, e.0, e.1);
      BuildPayloadStep(template, env, n, prefix);
      payload
  }

  /** Keys a template can produce: every payload property comes from some
      template entry. */
  lemma {:induction false} PayloadKeysFromTemplate(template: Entries, env: Env, k: string)
    requires k in KeysOf(BuildPayload(template, env))
    ensures exists i :: 0 <= i < |template| && Resolved(template, env, i).0 == k
  {
    var n := |template| - 1;
    var e := Resolved(template, env, n);
    if k != e.0 {
      var prefix := BuildPayload(template[..n], env);
      assert k in KeysOf(prefix);
      PayloadKeysFromTemplate(template[..n], env, k);
      var i :| 0 <= i < n && Resolved(template[..n], env, i).0 == k;
      assert Resolved(template, env, i) == Resolved(template[..n], env, i);
    }
  }

  /** When the resolved keys are distinct, the payload lists exactly the
      resolved entries, in template order. */
  lemma {:induction false} PayloadInTemplateOrder(template: Entries, env: Env)
    requires DistinctResolvedKeys(template, env)
    ensures |BuildPayload(template, env)| == |template|
    ensures forall i :: 0 <= i < |template| ==> BuildPayload(template, env)[i] == Resolved(template, env, i)
  {
    if |template| > 0 {
      var n := |template| - 1;
      PrefixResolved(template, env, n);
      assert DistinctResolvedKeys(template[..n], env);
      PayloadInTemplateOrder(template[..n], env);
      var prefix := BuildPayload(template[..n], env);
      var e := Resolved(template, env, n);
      KeysOfMembers(prefix, e.0);
      assert e.0 !in KeysOf(prefix) by {
        forall i | 0 <= i < |prefix| ensures prefix[i].0 != e.0 {
          assert prefix[i] == Resolved(template, env, i);
        }
      }
      assert BuildPayload(template, env) == prefix + [e];
    }
  }

  /** A string value that is an argument reference — one whose brace-stripped
      form (`{name}`, `{name`, `name}` or a bare `name`) is an argument's name —
      puts the argument's raw value, of whatever type, under the interpolated
      key. */
  lemma PayloadReference(template: Entries, env: Env, i: nat)
    requires i < |template| && LastWithKey(template, env, i)
    requires template[i].1.Str? && StripBraces(template[i].1.s) in env
    ensures Lookup(BuildPayload(template, env), Interpolate(template[i].0, env))
         == Some(env[StripBraces(template[i].1.s)])
  {
  }

  /** A string value that does not name an argument is interpolated as text
      and put under the interpolated key. */
  lemma PayloadText(template: Entries, env: Env, i: nat)
    requires i < |template| && LastWithKey(template, env, i)
    requires template[i].1.Str? && StripBraces(template[i].1.s) !in env
    ensures Lookup(BuildPayload(template, env), Interpolate(template[i].0, env))
         == Some(Str(Interpolate(template[i].1.s, env)))
  {
  }

  /** A non-string value is copied unchanged under its original,
      un-interpolated key. */
  lemma PayloadVerbatim(template: Entries, env: Env, i: nat)
    requires i < |template| && LastWithKey(template, env, i)
    requires !template[i].1.Str?
    ensures Lookup(BuildPayload(template, env), template[i].0) == Some(template[i].1)
  {
  }

  /** `prepareRequest`: the method falls back to "GET" when it is absent or
      empty, the URL is the interpolated URL template (an absent one reads as
      ""), the headers are passed through without interpolation, and the body
      is the payload built from the configured template. */
  function PrepareRequest(config: FunctionConfig, env: Env): (r: Request)
    ensures r.httpMethod != ""
    ensures config.httpMethod.Some? && config.httpMethod.value != "" ==> r.httpMethod == config.httpMethod.value
    ensures config.httpMethod.None? || config.httpMethod.value == "" ==> r.httpMethod == "GET"
    ensures config.url.None? ==> r.url == ""
    ensures config.url.Some? ==> r.url == Interpolate(config.url.value, env)
    ensures r.headers == config.headers
    ensures r.body == BuildPayload(config.payload.GetOr([]), env)
  {
    var m := config.httpMethod.GetOr("");
    Request(
      if m != "" then m else "GET",
      Interpolate(config.url.GetOr(""), env),
      config.headers,
      BuildPayload(config.payload.GetOr([]), env))
  }

  /** A configured URL without placeholders is sent exactly as configured,
      whatever the arguments. */
  lemma StaticUrl(config: FunctionConfig, env: Env)
    requires config.url.Some? && !HasPlaceholder(config.url.value)
    ensures PrepareRequest(config, env).url == config.url.value
  {
    InterpolateNoPlaceholder(config.url.value, env);
  }
}
