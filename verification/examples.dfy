/** Concrete instances of the behaviour of `interpolateTemplate`. */
module TemplateExamples {
  import opened Wrappers
  import opened Values
  import opened Template

  /** The string forms used by the examples below. */
  lemma SubstituteExamples()
    ensures Substitute(map["x" := Num(5), "y" := Str("a")], "x") == "5"
    ensures Substitute(map["x" := Num(5), "y" := Str("a")], "y") == "a"
  {
  }

  /** The query-string template and its rendering, spelled piece by piece. */
  lemma QueryStringPieces()
    ensures "id=" + (Placeholder("x") + ("&y=" + (Placeholder("y") + ""))) == "id={{x}}&y={{y}}"
    ensures "id=" + ("5" + ("&y=" + ("a" + ""))) == "id=5&y=a"
  {
  }

  /** `id={{x}}&y={{y}}` with x = 5 and y = "a" renders as `id=5&y=a`. */
  lemma QueryStringExample()
    ensures Interpolate("id={{x}}&y={{y}}", map["x" := Num(5), "y" := Str("a")]) == "id=5&y=a"
  {
    var env := map["x" := Num(5), "y" := Str("a")];
    QueryStringPieces();
    SubstituteExamples();
    assert IsWord("x") && IsWord("y");
    InterpolateTextThenHole("&y=", "y", "", env);
    InterpolateTextThenHole("id=", "x", "&y=" + (Placeholder("y") + ""), env);
  }

  /** A missing key leaves its placeholder in place: `hello {{name}}` over an
      empty mapping stays `hello {{name}}`. */
  lemma MissingKeyExample()
    ensures Interpolate("hello {{name}}", map[]) == "hello {{name}}"
  {
    InterpolateUnresolved("hello {{name}}", map[]);
  }

  /** A key that is not a `\w+` word is never a placeholder: `{{a-b}}` comes
      back unchanged even when `a-b` has a value. */
  lemma HyphenKeyExample()
    ensures Interpolate("{{a-b}}", map["a-b" := Str("x")]) == "{{a-b}}"
  {
    assert !IsWordChar("a-b"[1]);
    NonWordKeyUntouched("a-b", map["a-b" := Str("x")]);
    assert Placeholder("a-b") == "{{a-b}}";
  }

  /** `total: {{amount}}` with amount = 5 renders as `total: 5`. */
  lemma TotalExample()
    ensures Interpolate("total: {{amount}}", map["amount" := Num(5)]) == "total: 5"
  {
    var env := map["amount" := Num(5)];
    TotalPieces();
    assert IsWord("amount");
    assert Substitute(env, "amount") == "5" by {
      assert Show(Num(5)) == Some("5");
    }
    InterpolateTextThenHole("total: ", "amount", "", env);
  }

  /** The `total` template and its rendering, spelled piece by piece. */
  lemma TotalPieces()
    ensures "total: " + (Placeholder("amount") + "") == "total: {{amount}}"
    ensures "total: " + ("5" + "") == "total: 5"
  {
  }

  /** JSON-shaped text around a placeholder: single braces are literal text,
      so `{"q":"{{x}}"}` with x = "a" renders as `{"q":"a"}`. */
  lemma JsonTextExample()
    ensures Interpolate("{\"q\":\"{{x}}\"}", map["x" := Str("a")]) == "{\"q\":\"a\"}"
  {
    var env := map["x" := Str("a")];
    JsonTextPieces();
    assert IsWord("x");
    assert Literal("{\"q\":\"");
    InterpolateTextThenHole("{\"q\":\"", "x", "\"}", env);
    InterpolateLiteral("\"}", env);
  }

  /** A non-word `{{a-b}}` is literal text even right before a real hole:
      `{{a-b}}{{x}}` with x = "a" renders as `{{a-b}}a`. */
  lemma HyphenBesideHoleExample()
    ensures Interpolate("{{a-b}}{{x}}", map["x" := Str("a")]) == "{{a-b}}a"
  {
    var env := map["x" := Str("a")];
    HyphenBesidePieces();
    assert IsWord("x");
    assert Literal("{{a-b}}") by {
      assert WordPrefix("a-b}}") == 1 by {
        assert "a-b}}"[1..] == "-b}}";
      }
      assert "{{a-b}}"[2..] == "a-b}}";
    }
    InterpolateTextThenHole("{{a-b}}", "x", "", env);
  }

  /** The hyphen template and its rendering, spelled piece by piece. */
  lemma HyphenBesidePieces()
    ensures "{{a-b}}" + (Placeholder("x") + "") == "{{a-b}}{{x}}"
    ensures "{{a-b}}" + ("a" + "") == "{{a-b}}a"
  {
  }

  /** The JSON-shaped template and its rendering, spelled piece by piece. */
  lemma JsonTextPieces()
    ensures "{\"q\":\"" + (Placeholder("x") + "\"}") == "{\"q\":\"{{x}}\"}"
    ensures "{\"q\":\"" + ("a" + "\"}") == "{\"q\":\"a\"}"
  {
  }

  /** Text of fewer than four characters holds no placeholder. */
  lemma ShortTextNoPlaceholder(t: string)
    requires |t| < 4
    ensures !HasPlaceholder(t)
  {
    forall i, n: nat | 0 <= i <= |t| ensures !PlaceholderOfLen(t[i..], n) {
    }
  }

  /** `{{{x}}}` with x = "a" renders as `{a}`: the match starts at the second
      brace, so the first and the last brace are kept. */
  lemma BraceBeforeHoleExample()
    ensures Interpolate("{{{x}}}", map["x" := Str("a")]) == "{a}"
  {
    var env := map["x" := Str("a")];
    var segs := [Text("{"), Hole("x")];
    BraceBeforeHolePieces(env);
    ShortTextNoPlaceholder("{");
    ShortTextNoPlaceholder("}");
    assert IsWord("x");
    assert SegmentOk(segs, 0) && SegmentOk(segs, 1);
    InterpolateAssembledTail(segs, "}", env);
  }

  /** The brace-before-hole template and its rendering, as segments. */
  lemma BraceBeforeHolePieces(env: Env)
    requires env == map["x" := Str("a")]
    ensures Assemble([Text("{"), Hole("x")]) + "}" == "{{{x}}}"
    ensures Render([Text("{"), Hole("x")], env) + "}" == "{a}"
  {
    var segs := [Text("{"), Hole("x")];
    assert segs[1..] == [Hole("x")];
    assert segs[1..][1..] == [];
    assert Substitute(env, "x") == "a";
    assert Render(segs[1..], env) == "a";
    assert Render(segs, env) == "{" + "a";
  }

  /** `{{x}} {` with x = "a" renders as `a {`: a brace after the last hole is
      kept. */
  lemma BraceAfterHoleExample()
    ensures Interpolate("{{x}} {", map["x" := Str("a")]) == "a {"
  {
    var env := map["x" := Str("a")];
    var segs := [Hole("x")];
    BraceAfterHolePieces(env);
    ShortTextNoPlaceholder(" {");
    assert IsWord("x");
    assert SegmentOk(segs, 0);
    InterpolateAssembledTail(segs, " {", env);
  }

  /** The brace-after-hole template and its rendering, as segments. */
  lemma BraceAfterHolePieces(env: Env)
    requires env == map["x" := Str("a")]
    ensures Assemble([Hole("x")]) + " {" == "{{x}} {"
    ensures Render([Hole("x")], env) + " {" == "a {"
  {
    assert [Hole("x")][1..] == [];
    assert Substitute(env, "x") == "a";
  }
}

/** Concrete instances of the behaviour of `prepareRequest`'s payload
    builder and of `validateArgs`. */
module CallExamples {
  import opened Wrappers
  import opened Values
  import opened Template
  import opened Errors
  import opened Validation
  import opened Request
  import Entries
  import TemplateExamples

  /** The payload value `{amount}` with `amount` bound to [1, 2, 3] puts the
      array itself into the payload, not its string form. */
  lemma ArrayReferenceExample()
    ensures var amount := Arr([Num(1), Num(2), Num(3)]);
      BuildPayload([("amount", Str("{amount}"))], map["amount" := amount]) == [("amount", amount)]
  {
    var amount := Arr([Num(1), Num(2), Num(3)]);
    StripBracesReference("amount");
    assert "{" + "amount" + "}" == "{amount}";
    BraceFreeLiteral("amount");
    InterpolateLiteral("amount", map["amount" := amount]);
  }

  /** The payload value `total: {{amount}}` with amount = 5 is interpolated
      as text: `total: 5`. */
  lemma TextPayloadExample()
    ensures BuildPayload([("total", Str("total: {{amount}}"))], map["amount" := Num(5)])
         == [("total", Str("total: 5"))]
  {
    var v := "total: {{amount}}";
    var env := map["amount" := Num(5)];
    var e := ResolveEntry("total", Str(v), env);
    TotalEntry();
    assert BuildPayload([("total", Str(v))], env) == Entries.Put([], e.0, e.1);
  }

  /** The single entry of that payload template resolves to `total: 5`. */
  lemma TotalEntry()
    ensures ResolveEntry("total", Str("total: {{amount}}"), map["amount" := Num(5)])
         == ("total", Str("total: 5"))
  {
    TemplateExamples.TotalExample();
    TotalKeyUnchanged();
    TotalNotReference();
    TextEntry("total", "total: {{amount}}", map["amount" := Num(5)], "total", "total: 5");
  }

  /** The key `total` has no placeholder. */
  lemma TotalKeyUnchanged()
    ensures Interpolate("total", map["amount" := Num(5)]) == "total"
  {
    BraceFreeLiteral("total");
    InterpolateLiteral("total", map["amount" := Num(5)]);
  }

  /** `total: {{amount}}` strips to no argument's name. */
  lemma TotalNotReference()
    ensures StripBraces("total: {{amount}}") !in map["amount" := Num(5)]
  {
    assert |StripBraces("total: {{amount}}")| >= 15;
  }

  /** An entry whose string value names no argument resolves to its
      interpolated key and value. */
  lemma TextEntry(key: string, v: string, env: Env, key': string, v': string)
    requires StripBraces(v) !in env && Interpolate(key, env) == key' && Interpolate(v, env) == v'
    ensures ResolveEntry(key, Str(v), env) == (key', Str(v'))
  {
  }

  /** A `string` argument given a number fails with a type mismatch naming
      that argument. */
  lemma StringArgumentExample()
    ensures ValidateArgs([Argument("name", "who to greet", "string", None)], [Num(1)])
         == Failure(TypeMismatch("name", "string"))
  {
  }
}
