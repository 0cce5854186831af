/** The `{{key}}` interpolator shared by the URL, payload keys and values, and
    the feedback messages: every match of /\{\{(\w+)\}\}/g is replaced by the
    string form of the named value, or left as it was when there is none. */
module Template {
  import opened Wrappers
  import opened Values

  /** The `\w` character class: ASCII letters, digits and underscore. */
  predicate IsWordChar(c: char) {
    ('a' <= c <= 'z') || ('A' <= c <= 'Z') || ('0' <= c <= '9') || c == '_'
  }

  /** A non-empty run of word characters, i.e. a text matched by `\w+`. */
  predicate IsWord(s: string) {
    |s| > 0 && forall i :: 0 <= i < |s| ==> IsWordChar(s[i])
  }

  /** `t` starts with a placeholder whose key has `n` characters. */
  predicate PlaceholderOfLen(t: string, n: nat) {
    && 4 + n <= |t|
    && t[0] == '{' && t[1] == '{'
    && IsWord(t[2..2 + n])
    && t[2 + n] == '}' && t[3 + n] == '}'
  }

  /** `t` contains a placeholder somewhere. */
  ghost predicate HasPlaceholder(t: string) {
    exists i, n :: 0 <= i <= |t| && PlaceholderOfLen(t[i..], n)
  }

  /** Length of the longest prefix of `s` made of word characters (what the
      greedy `\w+` consumes). */
  function WordPrefix(s: string): (n: nat)
    ensures n <= |s|
    ensures forall i :: 0 <= i < n ==> IsWordChar(s[i])
    ensures n < |s| ==> !IsWordChar(s[n])
  {
    if |s| > 0 && IsWordChar(s[0]) then 1 + WordPrefix(s[1..]) else 0
  }

  /** The key length of the placeholder the pattern matches at the very start
      of `t`, if one does. */
  function KeyAt(t: string): Option<nat> {
    if |t| >= 2 && t[0] == '{' && t[1] == '{' then
      var n := WordPrefix(t[2..]);
      if n > 0 && 4 + n <= |t| && t[2 + n] == '}' && t[3 + n] == '}' then Some(n) else None
    else None
  }

  /** What the scan finds at a position is a placeholder. */
  lemma KeyAtSound(t: string)
    ensures KeyAt(t).Some? ==> PlaceholderOfLen(t, KeyAt(t).value)
  {
  }

  /** Every placeholder at the start of `t` is the one `KeyAt` finds: since
      `\w` excludes `}`, backtracking cannot help the greedy `\w+`, so the
      match at a position is unique. */
  lemma KeyAtComplete(t: string, n: nat)
    requires PlaceholderOfLen(t, n)
    ensures KeyAt(t) == Some(n)
  {
  }

  /** The replacement the callback `values[key]?.toString() || match` chooses
      for a key: the value's string form when the key is present and that
      form is a non-empty string, and nothing otherwise. */
  function Resolve(env: Env, key: string): (r: Option<string>)
    ensures r.Some? <==> key in env && Show(env[key]).Some? && Show(env[key]).value != ""
    ensures r.Some? ==> r.value == Show(env[key]).value
  {
    if key in env then
      match Show(env[key])
      case Some(text) => if text != "" then Some(text) else None
      case None => None
    else None
  }

  /** The placeholder text `{{key}}`. */
  function Placeholder(key: string): (p: string)
    ensures |p| == |key| + 4
  {
    "{{" + key + "}}"
  }

  /** The text that replaces the placeholder `{{key}}`. */
  function Substitute(env: Env, key: string): string {
    match Resolve(env, key)
    case Some(text) => text
    case None => Placeholder(key)
  }

  /** `templateStr.replace(/\{\{(\w+)\}\}/g, …)`: scans left to right; a
      placeholder matched at the current position is replaced and scanning
      resumes after it, otherwise one character is copied. */
  function Interpolate(t: string, env: Env): string
    decreases |t|
  {
    if |t| == 0 then ""
    else
      match KeyAt(t)
      case Some(n) => Substitute(env, t[2..2 + n]) + Interpolate(t[4 + n..], env)
      case None => [t[0]] + Interpolate(t[1..], env)
  }

  // ---------------------------------------------------------------------
  // Reference semantics: a template seen as literal text and holes.
  // ---------------------------------------------------------------------

  /** A piece of a template: literal text, or a `{{key}}` hole. */
  datatype Segment = Text(chars: string) | Hole(key: string)

  /** The template text a sequence of segments spells. */
  function Assemble(segs: seq<Segment>): string {
    if |segs| == 0 then ""
    else
      match segs[0]
      case Text(c) => c + Assemble(segs[1..])
      case Hole(k) => Placeholder(k) + Assemble(segs[1..])
  }

  /** The intended meaning of a template: literal text is kept and each hole
      becomes the string form of its value, or stays `{{key}}` when the key
      is missing or its string form is empty. */
  function Render(segs: seq<Segment>, env: Env): string {
    if |segs| == 0 then ""
    else
      match segs[0]
      case Text(c) => c + Render(segs[1..], env)
      case Hole(k) => Substitute(env, k) + Render(segs[1..], env)
  }

  /** No placeholder can start at position `i` of `c`, whatever text follows
      `c`: there is no `{{` there, or the word run after the `{{` ends inside
      `c` on something other than `}}`. */
  predicate NoMatchAt(c: string, i: nat)
    requires i < |c|
  {
    || c[i] != '{'
    || (i + 1 < |c| &&
        (|| c[i + 1] != '{'
         || (var w := WordPrefix(c[i + 2..]);
             && i + 2 + w < |c|
             && (w == 0 || c[i + 2 + w] != '}' || (i + 3 + w < |c| && c[i + 3 + w] != '}')))))
  }

  /** Literal text: no placeholder starts anywhere in it, whatever follows.
      Single braces (`{"q":`) and brace pairs around non-words (`{{a-b}}`)
      are literal text. */
  predicate Literal(c: string) {
    forall i :: 0 <= i < |c| ==> NoMatchAt(c, i)
  }

  /** Text without `{` is literal. */
  lemma BraceFreeLiteral(c: string)
    requires '{' !in c
    ensures Literal(c)
  {
    forall i | 0 <= i < |c| ensures NoMatchAt(c, i) {
      assert c[i] in c;
    }
  }

  /** A word run that ends inside `s` is not lengthened by what follows. */
  lemma {:induction false} WordPrefixExtends(s: string, rest: string)
    requires WordPrefix(s) < |s|
    ensures WordPrefix(s + rest) == WordPrefix(s)
  {
    if IsWordChar(s[0]) {
      assert (s + rest)[1..] == s[1..] + rest;
      WordPrefixExtends(s[1..], rest);
    }
  }

  /** The scan finds no placeholder at the start of literal text. */
  lemma NoMatchAtStart(c: string, rest: string)
    requires 0 < |c| && NoMatchAt(c, 0)
    ensures KeyAt(c + rest).None?
  {
    var t := c + rest;
    if c[0] == '{' && c[1] == '{' {
      assert t[2..] == c[2..] + rest;
      WordPrefixExtends(c[2..], rest);
    }
  }

  /** What remains of literal text after its first character is literal. */
  lemma LiteralTail(c: string)
    requires 0 < |c| && Literal(c)
    ensures Literal(c[1..])
  {
    forall i | 0 <= i < |c[1..]| ensures NoMatchAt(c[1..], i) {
      assert NoMatchAt(c, i + 1);
      if i + 1 < |c[1..]| {
        assert c[1..][i + 2..] == c[i + 3..];
      }
    }
  }

  /** Segment `i` is in order: a hole's key is a `\w+` word; text is literal,
      or holds no placeholder of its own and is followed by a hole. */
  ghost predicate SegmentOk(segs: seq<Segment>, i: nat)
    requires i < |segs|
  {
    match segs[i]
    case Text(c) => Literal(c) || (i + 1 < |segs| && segs[i + 1].Hole? && !HasPlaceholder(c))
    case Hole(k) => IsWord(k)
  }

  /** Every segment is in order. */
  ghost predicate WellFormed(segs: seq<Segment>) {
    forall i :: 0 <= i < |segs| ==> SegmentOk(segs, i)
  }

  lemma WellFormedTail(segs: seq<Segment>)
    requires 0 < |segs| && WellFormed(segs)
    ensures WellFormed(segs[1..])
  {
    forall i | 0 <= i < |segs[1..]| ensures SegmentOk(segs[1..], i) {
      assert SegmentOk(segs, i + 1);
      assert segs[1..][i] == segs[i + 1];
      if i + 1 < |segs[1..]| {
        assert segs[1..][i + 1] == segs[i + 2];
      }
    }
  }

  /** Putting back the first character: `[c[0]] + (c[1..] + u)` is `c + u`. */
  lemma PrependAssoc(c: string, u: string)
    requires 0 < |c|
    ensures [c[0]] + (c[1..] + u) == c + u
  {
    assert c == [c[0]] + c[1..];
  }

  /** A first character at which no placeholder starts is copied. */
  lemma CopyFirstChar(c: string, rest: string, env: Env)
    requires 0 < |c| && KeyAt(c + rest).None?
    ensures Interpolate(c + rest, env) == [c[0]] + Interpolate(c[1..] + rest, env)
  {
    var t := c + rest;
    assert t[0] == c[0];
    assert t[1..] == c[1..] + rest;
  }

  /** One step over text: its first character is copied, so once the rest of
      the text is known to be copied, all of it is. */
  lemma CopyStepText(c: string, rest: string, env: Env)
    requires 0 < |c| && KeyAt(c + rest).None?
    requires Interpolate(c[1..] + rest, env) == c[1..] + Interpolate(rest, env)
    ensures Interpolate(c + rest, env) == c + Interpolate(rest, env)
  {
    CopyFirstChar(c, rest, env);
    PrependAssoc(c, Interpolate(rest, env));
  }

  /** Literal text is copied through untouched, whatever follows it. */
  lemma {:induction false} InterpolateTextPrefix(c: string, rest: string, env: Env)
    requires Literal(c)
    ensures Interpolate(c + rest, env) == c + Interpolate(rest, env)
  {
    if |c| > 0 {
      LiteralTail(c);
      InterpolateTextPrefix(c[1..], rest, env);
      NoMatchAtStart(c, rest);
      CopyStepText(c, rest, env);
    } else {
      assert c + rest == rest;
    }
  }

  /** Dropping the first character keeps a text free of placeholders. */
  lemma NoPlaceholderTail(c: string)
    requires 0 < |c| && !HasPlaceholder(c)
    ensures !HasPlaceholder(c[1..])
  {
    forall i, n: nat | 0 <= i <= |c[1..]| ensures !PlaceholderOfLen(c[1..][i..], n) {
      assert c[1..][i..] == c[i + 1..];
    }
  }

  /** In text without a placeholder of its own, followed by `{{`, no
      placeholder starts at the first character: one would have to end inside
      the text, since `{` is neither a `\w` character nor `}`. */
  lemma NoKeyBeforeHole(c: string, s: string)
    requires 0 < |c| && !HasPlaceholder(c)
    requires 2 <= |s| && s[0] == '{' && s[1] == '{'
    ensures KeyAt(c + s).None?
  {
    var t := c + s;
    forall n: nat ensures !PlaceholderOfLen(t, n) {
      if 4 + n <= |t| {
        if 4 + n <= |c| {
          assert c[0..] == c;
          assert !PlaceholderOfLen(c[0..], n);
          assert t[2..2 + n] == c[2..2 + n];
        } else if |c| == 1 {
          assert t[2] == s[1];
          if n > 0 {
            assert t[2..2 + n][0] == t[2];
          }
        } else if |c| < 2 + n {
          assert t[|c|] == s[0];
          assert t[2..2 + n][|c| - 2] == t[|c|];
        } else {
          assert t[|c|] == s[0];
        }
      }
    }
    KeyAtSound(t);
  }

  /** Text without a placeholder of its own, followed by a `{{`, is copied
      through untouched. */
  lemma {:induction false} TextBeforeHole(c: string, s: string, env: Env)
    requires !HasPlaceholder(c)
    requires 2 <= |s| && s[0] == '{' && s[1] == '{'
    ensures Interpolate(c + s, env) == c + Interpolate(s, env)
  {
    if |c| > 0 {
      NoPlaceholderTail(c);
      TextBeforeHole(c[1..], s, env);
      NoKeyBeforeHole(c, s);
      CopyStepText(c, s, env);
    } else {
      assert c + s == s;
    }
  }

  /** Literal text comes back unchanged. */
  lemma InterpolateLiteral(c: string, env: Env)
    requires Literal(c)
    ensures Interpolate(c, env) == c
  {
    InterpolateTextPrefix(c, "", env);
    assert c + "" == c;
  }

  /** One step of the scan when a placeholder starts at the current position. */
  lemma InterpolateStep(t: string, env: Env, n: nat)
    requires KeyAt(t) == Some(n)
    ensures Interpolate(t, env) == Substitute(env, t[2..2 + n]) + Interpolate(t[4 + n..], env)
  {
  }

  /** A leading `{{key}}` with a word key is matched and substituted. */
  lemma InterpolateHolePrefix(k: string, rest: string, env: Env)
    requires IsWord(k)
    ensures Interpolate(Placeholder(k) + rest, env) == Substitute(env, k) + Interpolate(rest, env)
  {
    var p := Placeholder(k);
    var t := p + rest;
    assert |p| == 4 + |k|;
    assert t[..|p|] == p;
    assert t[0] == '{' && t[1] == '{';
    assert t[2..2 + |k|] == k;
    assert t[2 + |k|] == '}' && t[3 + |k|] == '}';
    KeyAtComplete(t, |k|);
    assert t[4 + |k|..] == rest;
    InterpolateStep(t, env, |k|);
  }

  /** Literal text followed by a placeholder: the text is kept and the
      placeholder substituted. */
  lemma InterpolateTextThenHole(c: string, k: string, rest: string, env: Env)
    requires Literal(c) && IsWord(k)
    ensures Interpolate(c + (Placeholder(k) + rest), env) == c + (Substitute(env, k) + Interpolate(rest, env))
  {
    InterpolateHolePrefix(k, rest, env);
    InterpolateTextPrefix(c, Placeholder(k) + rest, env);
  }

  /** The assembled text of segments starting with a hole begins with `{{`. */
  lemma HoleStart(segs: seq<Segment>, tail: string)
    requires 0 < |segs| && segs[0].Hole?
    ensures var t := Assemble(segs) + tail; 2 <= |t| && t[0] == '{' && t[1] == '{'
  {
    var p := Placeholder(segs[0].key);
    assert Assemble(segs) == p + Assemble(segs[1..]);
    assert p[0] == '{' && p[1] == '{';
  }

  /** Text that is literal, or has no placeholder of its own and comes right
      before a `{{`, is copied through untouched. */
  lemma CopyText(c: string, rest: string, env: Env)
    requires Literal(c) || (!HasPlaceholder(c) && 2 <= |rest| && rest[0] == '{' && rest[1] == '{')
    ensures Interpolate(c + rest, env) == c + Interpolate(rest, env)
  {
    if Literal(c) {
      InterpolateTextPrefix(c, rest, env);
    } else {
      TextBeforeHole(c, rest, env);
    }
  }

  /** Assembling and rendering both start with a text segment's characters. */
  lemma TextHead(segs: seq<Segment>, tail: string, env: Env)
    requires 0 < |segs| && segs[0].Text?
    ensures Assemble(segs) + tail == segs[0].chars + (Assemble(segs[1..]) + tail)
    ensures Render(segs, env) + tail == segs[0].chars + (Render(segs[1..], env) + tail)
  {
  }

  /** Assembling starts with a hole's placeholder, rendering with its value. */
  lemma HoleHead(segs: seq<Segment>, tail: string, env: Env)
    requires 0 < |segs| && segs[0].Hole?
    ensures Assemble(segs) + tail == Placeholder(segs[0].key) + (Assemble(segs[1..]) + tail)
    ensures Render(segs, env) + tail == Substitute(env, segs[0].key) + (Render(segs[1..], env) + tail)
  {
  }

  /** One text segment in front of segments already known to interpolate as
      they render. */
  lemma AssembledTextStep(segs: seq<Segment>, tail: string, env: Env)
    requires 0 < |segs| && segs[0].Text? && SegmentOk(segs, 0)
    requires Interpolate(Assemble(segs[1..]) + tail, env) == Render(segs[1..], env) + tail
    ensures Interpolate(Assemble(segs) + tail, env) == Render(segs, env) + tail
  {
    TextHead(segs, tail, env);
    if !Literal(segs[0].chars) {
      HoleStart(segs[1..], tail);
    }
    CopyText(segs[0].chars, Assemble(segs[1..]) + tail, env);
  }

  /** One hole in front of segments already known to interpolate as they
      render. */
  lemma AssembledHoleStep(segs: seq<Segment>, tail: string, env: Env)
    requires 0 < |segs| && segs[0].Hole? && IsWord(segs[0].key)
    requires Interpolate(Assemble(segs[1..]) + tail, env) == Render(segs[1..], env) + tail
    ensures Interpolate(Assemble(segs) + tail, env) == Render(segs, env) + tail
  {
    HoleHead(segs, tail, env);
    InterpolateHolePrefix(segs[0].key, Assemble(segs[1..]) + tail, env);
  }

  /** Interpolation agrees with the reference semantics on every well-formed
      template followed by any text without a placeholder: each hole is
      substituted and all other text is kept. */
  lemma {:induction false} InterpolateAssembledTail(segs: seq<Segment>, tail: string, env: Env)
    requires WellFormed(segs) && !HasPlaceholder(tail)
    ensures Interpolate(Assemble(segs) + tail, env) == Render(segs, env) + tail
  {
    if |segs| == 0 {
      InterpolateNoPlaceholder(tail, env);
      assert Assemble(segs) + tail == tail;
      assert Render(segs, env) + tail == tail;
    } else {
      WellFormedTail(segs);
      InterpolateAssembledTail(segs[1..], tail, env);
      assert SegmentOk(segs, 0);
      if segs[0].Text? {
        AssembledTextStep(segs, tail, env);
      } else {
        AssembledHoleStep(segs, tail, env);
      }
    }
  }

  /** Interpolation agrees with the reference semantics on every well-formed
      template. */
  lemma InterpolateAssembled(segs: seq<Segment>, env: Env)
    requires WellFormed(segs)
    ensures Interpolate(Assemble(segs), env) == Render(segs, env)
  {
    forall i, n: nat | 0 <= i <= |""| ensures !PlaceholderOfLen(""[i..], n) {
    }
    InterpolateAssembledTail(segs, "", env);
    assert Assemble(segs) + "" == Assemble(segs);
    assert Render(segs, env) + "" == Render(segs, env);
  }

  /** A template without any `{{word}}` placeholder comes back unchanged,
      whatever the values; in particular text like `{{a-b}}` is never touched. */
  lemma {:induction false} InterpolateNoPlaceholder(t: string, env: Env)
    requires !HasPlaceholder(t)
    ensures Interpolate(t, env) == t
  {
    if |t| > 0 {
      assert t[0..] == t;
      KeyAtSound(t);
      assert KeyAt(t).None?;
      NoPlaceholderTail(t);
      InterpolateNoPlaceholder(t[1..], env);
      assert t == [t[0]] + t[1..];
    }
  }

  /** A placeholder whose key does not resolve is copied verbatim. */
  lemma UnresolvedPlaceholderKept(t: string, env: Env, n: nat)
    requires KeyAt(t) == Some(n)
    requires Resolve(env, t[2..2 + n]).None?
    ensures Interpolate(t, env) == t[..4 + n] + Interpolate(t[4 + n..], env)
  {
    var k := t[2..2 + n];
    var p := t[..4 + n];
    KeyAtSound(t);
    assert p == Placeholder(k) by {
      assert |p| == 4 + n;
      assert p[..2] == "{{";
      assert p[2..2 + n] == k;
      assert p[2 + n..] == "}}";
      assert p == p[..2] + p[2..2 + n] + p[2 + n..];
    }
    InterpolateStep(t, env, n);
  }

  /** No key has a non-empty string form in `env`. */
  predicate NothingResolves(env: Env) {
    forall k :: k in env ==> Resolve(env, k).None?
  }

  /** A `{{key}}` whose key is not a `\w+` word (and holds no braces) is not
      a placeholder: it comes back unchanged whatever the values. */
  lemma NonWordKeyUntouched(k: string, env: Env)
    requires '{' !in k && '}' !in k && !IsWord(k)
    ensures Interpolate(Placeholder(k), env) == Placeholder(k)
  {
    var t := Placeholder(k);
    assert t[2..2 + |k|] == k;
    forall i, n: nat | 0 <= i <= |t| ensures !PlaceholderOfLen(t[i..], n) {
      if i == 0 {
        assert t[0..] == t;
        if n < |k| {
          assert t[2 + n] == k[n];
        }
      } else if i == 1 {
        assert t[1..][1] == t[2];
      } else if i < |t| {
        assert t[i..][0] == t[i];
        if i < 2 + |k| {
          assert t[i] == k[i - 2];
        }
      }
    }
    InterpolateNoPlaceholder(t, env);
  }

  /** When no key resolves to a non-empty string form — every key is absent,
      null/undefined or renders as "" — every placeholder is left verbatim and
      the template comes back unchanged. */
  lemma {:induction false} InterpolateUnresolved(t: string, env: Env)
    requires NothingResolves(env)
    ensures Interpolate(t, env) == t
  {
    if |t| > 0 {
      match KeyAt(t)
      case Some(n) =>
        InterpolateUnresolved(t[4 + n..], env);
        assert Resolve(env, t[2..2 + n]).None?;
        UnresolvedHoleStep(t, env, n);
      case None =>
        InterpolateUnresolved(t[1..], env);
        CopyStep(t, env);
    }
  }

  /** An unresolved placeholder followed by text that comes back unchanged
      comes back unchanged. */
  lemma UnresolvedHoleStep(t: string, env: Env, n: nat)
    requires KeyAt(t) == Some(n) && Resolve(env, t[2..2 + n]).None?
    requires Interpolate(t[4 + n..], env) == t[4 + n..]
    ensures Interpolate(t, env) == t
  {
    UnresolvedPlaceholderKept(t, env, n);
    SplitJoin(t, 4 + n);
  }

  /** Cutting a text and joining the pieces gives it back. */
  lemma SplitJoin(t: string, i: nat)
    requires i <= |t|
    ensures t[..i] + t[i..] == t
  {
  }

  /** A character that starts no placeholder, followed by text that comes
      back unchanged, comes back unchanged. */
  lemma CopyStep(t: string, env: Env)
    requires 0 < |t| && KeyAt(t).None?
    requires Interpolate(t[1..], env) == t[1..]
    ensures Interpolate(t, env) == t
  {
    assert t == [t[0]] + t[1..];
  }
}
