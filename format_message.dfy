/**
 * `formatMessage` of `lib/utils.ts`: `template.replace(/{(\w+)}/g, ...)`,
 * one left-to-right pass that writes, for each `{word}`, the parameter of
 * that name when it is a non-empty string and the placeholder itself
 * otherwise.  Parameters are a map; a name it lacks reads as `undefined`.
 */
module Messages {
  import opened Common
  import opened Text

  /** The callback `(_, key) => params[key] || `{${key}}``. */
  function Substitute(params: map<string, string>, key: string): string {
    if key in params && params[key] != "" then params[key] else "{" + key + "}"
  }

  /** The length of the run of word characters (`\w`) starting at `i`. */
  function NameRun(s: string, i: nat): nat
    decreases |s| - i
  {
    if i < |s| && IsWordChar(s[i]) then 1 + NameRun(s, i + 1) else 0
  }

  /** The template starts with a placeholder: `{`, a non-empty word run, `}`. */
  predicate PlaceholderFirst(t: string) {
    t != [] && t[0] == '{' && 0 < NameRun(t, 1) && 1 + NameRun(t, 1) < |t| && t[1 + NameRun(t, 1)] == '}'
  }

  /** The global replace: at a placeholder its substitution is written and the
    * scan resumes after it, so written text is never looked at again; any
    * other character is copied. */
  function FormatMessage(template: string, params: map<string, string>): string
    decreases |template|
  {
    if template == [] then []
    else if PlaceholderFirst(template) then
      var n := NameRun(template, 1);
      Substitute(params, template[1..1 + n]) + FormatMessage(template[n + 2..], params)
    else [template[0]] + FormatMessage(template[1..], params)
  }

  /** A run of word characters ending at the end of the text or before a
    * non-word character is what `NameRun` measures. */
  lemma {:induction false} NameRunIs(s: string, i: nat, n: nat)
    requires i + n <= |s|
    requires forall k :: i <= k < i + n ==> IsWordChar(s[k])
    requires i + n == |s| || !IsWordChar(s[i + n])
    ensures NameRun(s, i) == n
    decreases n
  {
    if n > 0 {
      NameRunIs(s, i + 1, n - 1);
    }
  }

  /** Inside `pre`, the word run does not reach into text after a boundary. */
  lemma {:induction false} NameRunConcat(pre: string, x: string, i: nat)
    requires i <= |pre| && Boundary(x)
    ensures NameRun(pre + x, i) == NameRun(pre, i) <= |pre| - i
    decreases |pre| - i
  {
    if i < |pre| {
      assert (pre + x)[i] == pre[i];
      NameRunConcat(pre, x, i + 1);
    } else if x != [] {
      assert (pre + x)[i] == x[0];
    }
  }

  lemma FormatPlain(t: string, params: map<string, string>)
    requires t != [] && !PlaceholderFirst(t)
    ensures FormatMessage(t, params) == [t[0]] + FormatMessage(t[1..], params)
  {
  }

  lemma FormatMatch(t: string, params: map<string, string>)
    requires PlaceholderFirst(t)
    ensures var n := NameRun(t, 1);
      FormatMessage(t, params) == Substitute(params, t[1..1 + n]) + FormatMessage(t[n + 2..], params)
  {
  }

  /** Text that starts with neither a word character nor `}` cannot finish
    * a placeholder begun before it. */
  predicate Boundary(x: string) {
    x == [] || (!IsWordChar(x[0]) && x[0] != '}')
  }

  /** Whether a placeholder starts the text, and how long its name is, does
    * not depend on what follows a boundary. */
  lemma PlaceholderAtBoundary(pre: string, x: string)
    requires pre != [] && Boundary(x)
    ensures PlaceholderFirst(pre + x) <==> PlaceholderFirst(pre)
    ensures NameRun(pre + x, 1) == NameRun(pre, 1)
  {
    NameRunConcat(pre, x, 1);
    var n := NameRun(pre, 1);
    if 1 + n < |pre| {
      assert (pre + x)[1 + n] == pre[1 + n];
    } else if 1 + n == |pre| && x != [] {
      assert (pre + x)[1 + n] == x[0];
    }
  }

  /** Formatting distributes over a concatenation at a boundary. */
  lemma {:induction false} FormatConcat(pre: string, x: string, params: map<string, string>)
    requires Boundary(x)
    ensures FormatMessage(pre + x, params) == FormatMessage(pre, params) + FormatMessage(x, params)
    decreases |pre|
  {
    if pre == [] {
      assert pre + x == x;
    } else if PlaceholderFirst(pre) {
      var n := NameRun(pre, 1);
      FormatConcat(pre[n + 2..], x, params);
      ConcatMatchStep(pre, x, params);
    } else {
      FormatConcat(pre[1..], x, params);
      ConcatPlainStep(pre, x, params);
    }
  }

  /** The step of `FormatConcat` when the text starts with a placeholder. */
  lemma ConcatMatchStep(pre: string, x: string, params: map<string, string>)
    requires Boundary(x) && PlaceholderFirst(pre)
    requires var rest := pre[NameRun(pre, 1) + 2..];
      FormatMessage(rest + x, params) == FormatMessage(rest, params) + FormatMessage(x, params)
    ensures FormatMessage(pre + x, params) == FormatMessage(pre, params) + FormatMessage(x, params)
  {
    var t := pre + x;
    PlaceholderAtBoundary(pre, x);
    var n := NameRun(pre, 1);
    SliceConcat(pre, x, 1, 1 + n);
    SliceConcat(pre, x, n + 2, n + 2);
    var sub := Substitute(params, pre[1..1 + n]);
    var rest := pre[n + 2..];
    FormatMatch(t, params);
    FormatMatch(pre, params);
    Assoc(sub, FormatMessage(rest, params), FormatMessage(x, params));
  }

  lemma SliceConcat(pre: string, x: string, i: nat, j: nat)
    requires i <= j <= |pre|
    ensures (pre + x)[i..j] == pre[i..j] && (pre + x)[i..] == pre[i..] + x
  {
  }

  /** The step of `FormatConcat` when the text starts with any other character. */
  lemma ConcatPlainStep(pre: string, x: string, params: map<string, string>)
    requires Boundary(x) && pre != [] && !PlaceholderFirst(pre)
    requires FormatMessage(pre[1..] + x, params) == FormatMessage(pre[1..], params) + FormatMessage(x, params)
    ensures FormatMessage(pre + x, params) == FormatMessage(pre, params) + FormatMessage(x, params)
  {
    var t := pre + x;
    PlaceholderAtBoundary(pre, x);
    FormatPlain(t, params);
    FormatPlain(pre, params);
    assert t[1..] == pre[1..] + x;
    Assoc([pre[0]], FormatMessage(pre[1..], params), FormatMessage(x, params));
  }

  /** A placeholder is replaced by its parameter, or kept when the parameter
    * is missing or empty, and the text after it is formatted on its own. */
  lemma FormatPlaceholder(key: string, post: string, params: map<string, string>)
    requires key != [] && forall k :: 0 <= k < |key| ==> IsWordChar(key[k])
    ensures FormatMessage("{" + key + "}" + post, params) == Substitute(params, key) + FormatMessage(post, params)
  {
    var t := "{" + key + "}" + post;
    forall k | 1 <= k < 1 + |key| ensures IsWordChar(t[k]) {
      assert t[k] == key[k - 1];
    }
    assert t[1 + |key|] == '}';
    NameRunIs(t, 1, |key|);
    assert PlaceholderFirst(t);
    assert t[1..1 + |key|] == key;
    assert t[|key| + 2..] == post;
  }

  /** `formatMessage(pre + "{key}" + post)`: the two sides are formatted
    * separately and the placeholder between them is substituted once; the
    * substituted text is not scanned again. */
  lemma SinglePass(pre: string, key: string, post: string, params: map<string, string>)
    requires key != [] && forall k :: 0 <= k < |key| ==> IsWordChar(key[k])
    ensures FormatMessage(pre + "{" + key + "}" + post, params)
      == FormatMessage(pre, params) + Substitute(params, key) + FormatMessage(post, params)
  {
    var x := "{" + key + "}" + post;
    assert pre + "{" + key + "}" + post == pre + x;
    FormatConcat(pre, x, params);
    FormatPlaceholder(key, post, params);
  }

  /** A template without `{` comes back unchanged. */
  lemma {:induction false} NoPlaceholders(template: string, params: map<string, string>)
    requires '{' !in template
    ensures FormatMessage(template, params) == template
    decreases |template|
  {
    if template != [] {
      NoPlaceholders(template[1..], params);
    }
  }

  /** Substituted text is not rescanned: `{a}` with `a` set to `{b}` gives
    * `{b}`, whatever `b` is. */
  lemma NotRescanned(params: map<string, string>)
    requires "a" in params && params["a"] == "{b}"
    ensures FormatMessage("{a}", params) == "{b}"
  {
    FormatPlaceholder("a", "", params);
    assert "{" + "a" + "}" + "" == "{a}";
    assert Substitute(params, "a") == "{b}";
    assert FormatMessage("", params) == "";
  }
}
