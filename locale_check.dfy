/**
 * The locale-file checker `verification/verify_i18n_locales.js`.  It reads
 * every `i18n/locales/<lang>.ts` file, turns the exported object into data
 * (through `JSON.parse`, or a line-by-line fallback when that fails), walks
 * every string in it and reports the strings that contain a script the
 * language must not use, and, outside the Latin-script locales, lower-case
 * English words that are not allow-listed.
 */
module LocaleCheck {
  import opened Common
  import opened Text
  import opened Scripts

  // ------------------------------------------------------------------ data

  /** A parsed locale value.  Strings and objects are what the walk looks
    * at; an array is an object whose keys are its indices (all that
    * `Object.entries` sees), and numbers, booleans and `null` are `JOther`. */
  datatype Json = JString(s: string) | JObject(entries: seq<(string, Json)>) | JOther

  /** One `{ path, value }` record of `extractStrings`. */
  datatype Leaf = Leaf(path: string, value: string)

  /** `ALLOWED_ENGLISH_TERMS`: brand names and template variables. */
  const LocaleAllowedTerms: seq<string> := [
    "iPhone", "eBay", "iMac", "iPad", "iOS", "macOS",
    "Instagram", "TikTok", "YouTube", "Facebook", "Twitter", "Google",
    "Amazon", "Netflix", "Spotify", "LinkedIn",
    "serviceName", "expression", "meaning", "tag"
  ]

  /** The template variables among the allow-listed terms. */
  const TemplateVariables: seq<string> := ["serviceName", "expression", "meaning", "tag"]

  /** The locales that are not checked for English words. */
  const LatinLocales: seq<string> := ["es", "fr", "de", "en"]

  /** An entry of `LANGUAGE_CONFIG`: display name and forbidden scripts, in order. */
  datatype LangConfig = LangConfig(name: string, forbidden: seq<Script>)

  /** `LANGUAGE_CONFIG[lang]`. */
  function ConfigOf(lang: string): Option<LangConfig> {
    if lang == "ko" then Some(LangConfig("Korean", [Kana, Han, Cyrillic, Arabic]))
    else if lang == "ja" then Some(LangConfig("Japanese", [Hangul, Cyrillic, Arabic]))
    else if lang == "zh" then Some(LangConfig("Chinese", [Hangul, Kana, Cyrillic, Arabic]))
    else if lang == "ru" then Some(LangConfig("Russian", [Hangul, Kana, Han, Arabic]))
    else if lang == "ar" then Some(LangConfig("Arabic", [Hangul, Kana, Han, Cyrillic]))
    else if lang == "es" then Some(LangConfig("Spanish", [Hangul, Kana, Han, Cyrillic, Arabic]))
    else if lang == "fr" then Some(LangConfig("French", [Hangul, Kana, Han, Cyrillic, Arabic]))
    else if lang == "de" then Some(LangConfig("German", [Hangul, Kana, Han, Cyrillic, Arabic]))
    else if lang == "en" then Some(LangConfig("English", [Hangul, Kana, Han, Cyrillic, Arabic]))
    else None
  }

  /** No configured language forbids its own script, and every configured
    * language forbids each of the five scripts other than its own. */
  lemma ConfigForbidsOtherScripts(lang: string, sc: Script)
    requires ConfigOf(lang).Some?
    ensures sc in ConfigOf(lang).value.forbidden <==>
      !(lang == "ko" && sc == Hangul) && !(lang == "ja" && (sc == Kana || sc == Han)) &&
      !(lang == "zh" && sc == Han) && !(lang == "ru" && sc == Cyrillic) &&
      !(lang == "ar" && sc == Arabic)
  {
  }

  // -------------------------------------------------------- extractStrings

  /** `currentPath ? `${currentPath}.${key}` : key`. */
  function PathJoin(cur: string, key: string): string {
    if cur != "" then cur + "." + key else key
  }

  /** The records the first `n` entries of object `v` contribute under `cur`. */
  function LeavesOf(v: Json, n: nat, cur: string): seq<Leaf>
    requires v.JObject? && n <= |v.entries|
    decreases v, n
  {
    if n == 0 then [] else LeavesOf(v, n - 1, cur) + EntryLeaves(v, n - 1, cur)
  }

  /** The records entry `k` of object `v` contributes under `cur`. */
  function EntryLeaves(v: Json, k: nat, cur: string): seq<Leaf>
    requires v.JObject? && k < |v.entries|
    decreases v, 0
  {
    var child := v.entries[k].1;
    var full := PathJoin(cur, v.entries[k].0);
    match child
    case JString(s) => [Leaf(full, s)]
    case JObject(es) => LeavesOf(child, |es|, full)
    case JOther => []
  }

  /** `extractStrings(obj, cur)`. */
  function Extract(obj: Json, cur: string): seq<Leaf>
    requires obj.JObject?
  {
    LeavesOf(obj, |obj.entries|, cur)
  }

  /** The node reached from `v` through the entry indices `p`, with the
    * dot-joined path of keys passed on the way. */
  function Follow(v: Json, p: seq<nat>, cur: string): Option<(string, Json)>
    decreases |p|
  {
    if p == [] then Some((cur, v))
    else if v.JObject? && p[0] < |v.entries| then
      Follow(v.entries[p[0]].1, p[1..], PathJoin(cur, v.entries[p[0]].0))
    else None
  }

  /** `x` is a string leaf of `v`, strictly inside it, at index path `p`. */
  predicate StringAt(v: Json, p: seq<nat>, cur: string, x: Leaf) {
    |p| > 0 && Follow(v, p, cur) == Some((x.path, JString(x.value)))
  }

  lemma LeavesComplete(v: Json, n: nat, cur: string, p: seq<nat>, x: Leaf)
    requires v.JObject? && n <= |v.entries|
    requires StringAt(v, p, cur, x) && p[0] < n
    ensures x in LeavesOf(v, n, cur)
    decreases v, n
  {
    if p[0] == n - 1 {
      EntryComplete(v, n - 1, cur, p, x);
    } else {
      LeavesComplete(v, n - 1, cur, p, x);
    }
  }

  lemma EntryComplete(v: Json, k: nat, cur: string, p: seq<nat>, x: Leaf)
    requires v.JObject? && k < |v.entries|
    requires StringAt(v, p, cur, x) && p[0] == k
    ensures x in EntryLeaves(v, k, cur)
    decreases v, 0
  {
    var child := v.entries[k].1;
    var full := PathJoin(cur, v.entries[k].0);
    assert Follow(v, p, cur) == Follow(child, p[1..], full);
    if |p| > 1 {
      assert child.JObject? && p[1] < |child.entries|;
      LeavesComplete(child, |child.entries|, full, p[1..], x);
    }
  }

  lemma LeavesSound(v: Json, n: nat, cur: string, x: Leaf)
    requires v.JObject? && n <= |v.entries|
    requires x in LeavesOf(v, n, cur)
    ensures exists p :: StringAt(v, p, cur, x) && p[0] < n
    decreases v, n
  {
    if x in LeavesOf(v, n - 1, cur) {
      LeavesSound(v, n - 1, cur, x);
    } else {
      EntrySound(v, n - 1, cur, x);
    }
  }

  lemma EntrySound(v: Json, k: nat, cur: string, x: Leaf)
    requires v.JObject? && k < |v.entries|
    requires x in EntryLeaves(v, k, cur)
    ensures exists p :: StringAt(v, p, cur, x) && p[0] == k
    decreases v, 0
  {
    var child := v.entries[k].1;
    var full := PathJoin(cur, v.entries[k].0);
    if child.JString? {
      assert StringAt(v, [k], cur, x);
    } else {
      LeavesSound(child, |child.entries|, full, x);
      var q :| StringAt(child, q, full, x) && q[0] < |child.entries|;
      var p := [k] + q;
      assert p[1..] == q;
      assert StringAt(v, p, cur, x);
    }
  }

  /** `extractStrings` returns exactly the string values nested anywhere in
    * the object, each with the dot-joined keys leading to it; numbers,
    * booleans and `null` contribute nothing. */
  lemma ExtractStringsExactly(obj: Json, cur: string, x: Leaf)
    requires obj.JObject?
    ensures x in Extract(obj, cur) <==> exists p :: StringAt(obj, p, cur, x)
  {
    if x in Extract(obj, cur) {
      LeavesSound(obj, |obj.entries|, cur, x);
    }
    if p :| StringAt(obj, p, cur, x) {
      LeavesComplete(obj, |obj.entries|, cur, p, x);
    }
  }

  /** `extractStrings(obj, currentPath)`: the entry loop, recursing into
    * nested objects. */
  method ExtractStrings(obj: Json, currentPath: string) returns (strings: seq<Leaf>)
    requires obj.JObject?
    ensures strings == Extract(obj, currentPath)
    decreases obj
  {
    strings := [];
    var i := 0;
    while i < |obj.entries|
      invariant 0 <= i <= |obj.entries|
      invariant strings == LeavesOf(obj, i, currentPath)
    {
      var (key, value) := obj.entries[i];
      var fullPath := if currentPath != "" then currentPath + "." + key else key;
      if value.JString? {
        strings := strings + [Leaf(fullPath, value.s)];
      } else if value.JObject? {
        var sub := ExtractStrings(value, fullPath);
        strings := strings + sub;
      }
      i := i + 1;
    }
  }

  // --------------------------------------------------------- parseFallback

  predicate IsQuote(c: char) { c == '"' || c == '\'' }

  /** Length of the `[^"']` run starting at `i`. */
  function NonQuoteRun(s: string, i: nat): (n: nat)
    ensures i + n <= |s| || n == 0
    ensures forall k :: i <= k < i + n ==> !IsQuote(s[k])
    ensures i + n < |s| ==> IsQuote(s[i + n])
    decreases |s| - i
  {
    if i < |s| && !IsQuote(s[i]) then 1 + NonQuoteRun(s, i + 1) else 0
  }

  /** The match of `/(\w+):\s*["']([^"']+)["']/` that starts at `p`, as the
    * pair of its two groups.  Each run is maximal: a shorter `\w+` would be
    * followed by a word character rather than `:`, and likewise for the
    * other two runs, so backtracking finds nothing else. */
  function MatchAt(line: string, p: nat): Option<(string, string)> {
    var n := WordRun(line, p);
    if n == 0 || p + n >= |line| || line[p + n] != ':' then None
    else
      var q := p + n + 1 + SpaceRun(line, p + n + 1);
      if q >= |line| || !IsQuote(line[q]) then None
      else
        var m := NonQuoteRun(line, q + 1);
        if m == 0 || q + 1 + m >= |line| then None
        else Some((line[p..p + n], line[q + 1..q + 1 + m]))
  }

  /** `line.match(...)` searching from `p`: the leftmost match. */
  function FallbackMatch(line: string, p: nat): (r: Option<(string, string)>)
    decreases |line| - p
  {
    if p >= |line| then None
    else if MatchAt(line, p).Some? then MatchAt(line, p)
    else FallbackMatch(line, p + 1)
  }

  /** The text a fallback match stands for: a key, a colon, blanks, a quote,
    * a value with no quote in it, and a closing quote. */
  predicate FallbackShape(line: string, a: nat, key: string, value: string) {
    |key| > 0 && |value| > 0 &&
    (forall c :: c in key ==> IsWordChar(c)) && (forall c :: c in value ==> !IsQuote(c)) &&
    exists b: nat :: (
      a + |key| < b < b + |value| + 1 < |line| &&
      line[a..a + |key|] == key && line[a + |key|] == ':' &&
      (forall k :: a + |key| < k < b ==> IsSpace(line[k])) &&
      IsQuote(line[b]) && line[b + 1..b + 1 + |value|] == value && IsQuote(line[b + 1 + |value|]))
  }

  lemma MatchAtShape(line: string, p: nat)
    requires MatchAt(line, p).Some?
    ensures FallbackShape(line, p, MatchAt(line, p).value.0, MatchAt(line, p).value.1)
  {
    var n := WordRun(line, p);
    assert n > 0 && p + n < |line| && line[p + n] == ':';
    var q := p + n + 1 + SpaceRun(line, p + n + 1);
    assert q < |line| && IsQuote(line[q]);
    var m := NonQuoteRun(line, q + 1);
    assert m > 0 && q + 1 + m < |line|;
    assert MatchAt(line, p).value == (line[p..p + n], line[q + 1..q + 1 + m]);
    ShapeOfRuns(line, p, n, q, m);
  }

  /** The runs `MatchAt` measures make up a well-shaped text. */
  lemma ShapeOfRuns(line: string, a: nat, n: nat, q: nat, m: nat)
    requires 0 < n && 0 < m && a + n < q && q + 1 + m < |line|
    requires forall k :: a <= k < a + n ==> IsWordChar(line[k])
    requires line[a + n] == ':' && IsQuote(line[q]) && IsQuote(line[q + 1 + m])
    requires forall k :: a + n < k < q ==> IsSpace(line[k])
    requires forall k :: q + 1 <= k < q + 1 + m ==> !IsQuote(line[k])
    ensures FallbackShape(line, a, line[a..a + n], line[q + 1..q + 1 + m])
  {
    var key := line[a..a + n];
    var value := line[q + 1..q + 1 + m];
    forall c | c in key ensures IsWordChar(c) {
      var k :| 0 <= k < |key| && key[k] == c;
      assert c == line[a + k];
    }
    forall c | c in value ensures !IsQuote(c) {
      var k :| 0 <= k < |value| && value[k] == c;
      assert c == line[q + 1 + k];
    }
    assert a + |key| < q < q + |value| + 1 < |line|;
  }

  /** A fallback match is a well-shaped key/value text found at or after `p`. */
  lemma FallbackMatchShape(line: string, p: nat)
    requires FallbackMatch(line, p).Some?
    ensures exists a: nat :: p <= a && FallbackShape(line, a, FallbackMatch(line, p).value.0, FallbackMatch(line, p).value.1)
    decreases |line| - p
  {
    if MatchAt(line, p).Some? {
      MatchAtShape(line, p);
    } else {
      FallbackMatchShape(line, p + 1);
    }
  }

  /** The match of a line, if any. */
  function LineMatch(line: string): Option<(string, string)> {
    FallbackMatch(line, 0)
  }

  /** `result[key] = value` on an object kept as its entries in insertion
    * order: an existing key keeps its place and takes the new value, a new
    * key goes last. */
  function Assign(es: seq<(string, string)>, key: string, value: string): seq<(string, string)>
    decreases |es|
  {
    if es == [] then [(key, value)]
    else if es[0].0 == key then [(key, value)] + es[1..]
    else [es[0]] + Assign(es[1..], key, value)
  }

  /** The value stored under `key`, if any. */
  function Get(es: seq<(string, string)>, key: string): Option<string>
    decreases |es|
  {
    if es == [] then None
    else if es[0].0 == key then Some(es[0].1)
    else Get(es[1..], key)
  }

  function Keys(es: seq<(string, string)>): seq<string>
    decreases |es|
  {
    if es == [] then [] else [es[0].0] + Keys(es[1..])
  }

  /** Assignment stores the new value under its key and leaves every other
    * key as it was, and an object never holds a key twice. */
  lemma {:induction false} AssignGet(es: seq<(string, string)>, key: string, value: string, k: string)
    ensures Get(Assign(es, key, value), k) == if k == key then Some(value) else Get(es, k)
    decreases |es|
  {
    if es != [] && es[0].0 != key {
      AssignGet(es[1..], key, value, k);
    }
  }

  lemma {:induction false} KeysAssign(es: seq<(string, string)>, key: string, value: string)
    ensures NoDuplicates(Keys(es)) ==> NoDuplicates(Keys(Assign(es, key, value)))
    ensures forall k :: k in Keys(Assign(es, key, value)) <==> k in Keys(es) || k == key
    decreases |es|
  {
    if es != [] {
      assert Keys(es) == [es[0].0] + Keys(es[1..]);
      ConsNoDuplicates(es[0].0, Keys(es[1..]));
      if es[0].0 != key {
        KeysAssign(es[1..], key, value);
        assert Keys(Assign(es, key, value)) == [es[0].0] + Keys(Assign(es[1..], key, value));
        ConsNoDuplicates(es[0].0, Keys(Assign(es[1..], key, value)));
      } else {
        assert Keys(Assign(es, key, value)) == [key] + Keys(es[1..]);
      }
    }
  }

  lemma ConsNoDuplicates<T>(a: T, xs: seq<T>)
    ensures NoDuplicates([a] + xs) <==> a !in xs && NoDuplicates(xs)
  {
    var ys := [a] + xs;
    assert forall i :: 0 <= i < |xs| ==> ys[i + 1] == xs[i];
    if a in xs {
      var j :| 0 <= j < |xs| && xs[j] == a;
      assert ys[j + 1] == ys[0];
    }
  }

  /** The object `parseFallback` builds from `lines`, one line at a time. */
  function FallbackOf(lines: seq<string>): seq<(string, string)>
    decreases |lines|
  {
    if lines == [] then []
    else
      var before := FallbackOf(lines[..|lines| - 1]);
      match LineMatch(lines[|lines| - 1])
      case None => before
      case Some(kv) => Assign(before, kv.0, kv.1)
  }

  /** Line `i` is the last one whose match is for `key`, and it sets `value`. */
  predicate LastSetter(lines: seq<string>, i: int, key: string, value: string) {
    0 <= i < |lines| && LineMatch(lines[i]) == Some((key, value)) &&
    forall j :: i < j < |lines| ==> LineMatch(lines[j]).None? || LineMatch(lines[j]).value.0 != key
  }

  /** The last line that sets a key wins: the fallback object holds `value`
    * under `key` exactly when the last line matching with that key has it. */
  lemma {:induction false} FallbackLastWins(lines: seq<string>, key: string, value: string)
    ensures Get(FallbackOf(lines), key) == Some(value) <==> exists i :: LastSetter(lines, i, key, value)
    decreases |lines|
  {
    if lines != [] {
      var init := lines[..|lines| - 1];
      var last := |lines| - 1;
      FallbackLastWins(init, key, value);
      var m := LineMatch(lines[last]);
      if m.Some? {
        AssignGet(FallbackOf(init), m.value.0, m.value.1, key);
      }
      forall i | 0 <= i < last
        ensures LastSetter(lines, i, key, value) <==>
          LastSetter(init, i, key, value) && (m.None? || m.value.0 != key)
      {
        assert forall j :: i < j < last ==> lines[j] == init[j];
      }
      if m.Some? && m.value.0 == key {
        assert LastSetter(lines, last, key, value) <==> m.value.1 == value;
        assert forall i :: 0 <= i < last ==> !LastSetter(lines, i, key, value);
      } else {
        assert !LastSetter(lines, last, key, value);
      }
    }
  }

  /** A key of the fallback object comes from some line, and no key appears twice. */
  lemma {:induction false} FallbackKeys(lines: seq<string>, key: string)
    ensures NoDuplicates(Keys(FallbackOf(lines)))
    ensures key in Keys(FallbackOf(lines)) <==>
      exists i :: 0 <= i < |lines| && LineMatch(lines[i]).Some? && LineMatch(lines[i]).value.0 == key
    decreases |lines|
  {
    if lines != [] {
      var init := lines[..|lines| - 1];
      FallbackKeys(init, key);
      var m := LineMatch(lines[|lines| - 1]);
      if m.Some? {
        KeysAssign(FallbackOf(init), m.value.0, m.value.1);
      }
      assert forall i :: 0 <= i < |init| ==> lines[i] == init[i];
    }
  }

  /** `parseFallback(content)`. */
  method ParseFallback(content: string) returns (result: seq<(string, string)>)
    ensures result == FallbackOf(Split(content, "\n"))
  {
    result := [];
    var lines := Split(content, "\n");
    var i := 0;
    while i < |lines|
      invariant 0 <= i <= |lines|
      invariant result == FallbackOf(lines[..i])
    {
      var line := lines[i];
      var m := FallbackMatch(line, 0);
      assert lines[..i + 1][..i] == lines[..i];
      if m.Some? {
        result := Assign(result, m.value.0, m.value.1);
      }
      i := i + 1;
    }
    assert lines[..i] == lines;
  }

  // ------------------------------------------------------- parseLocaleFile

  /** What the export-object regex, the replace chain that turns the object
    * literal into JSON, and `JSON.parse` make of a file's text: no
    * `export const` object, the entries of the parsed object, or a failure
    * of `JSON.parse`. */
  datatype Literal = NoExport | Parsed(entries: seq<(string, Json)>) | NotJson

  /** Why `parseLocaleFile` throws. */
  datatype ParseError = Unreadable | NotALocaleFile

  /** The object `parseFallback` returns, as parsed data. */
  function FallbackObject(es: seq<(string, string)>): seq<(string, Json)>
    decreases |es|
  {
    if es == [] then [] else [(es[0].0, JString(es[0].1))] + FallbackObject(es[1..])
  }

  /** `parseLocaleFile(filePath)`: `file` is the file's text, `None` when it
    * cannot be read, and `literal` what becomes of that text before the
    * fallback. */
  function LocaleData(file: Option<string>, literal: string -> Literal): Result<seq<(string, Json)>, ParseError> {
    match file
    case None => Err(Unreadable)
    case Some(content) =>
      match literal(content)
      case NoExport => Err(NotALocaleFile)
      case Parsed(es) => Ok(es)
      case NotJson => Ok(FallbackObject(FallbackOf(Split(content, "\n"))))
  }

  method ParseLocaleFile(file: Option<string>, literal: string -> Literal)
    returns (r: Result<seq<(string, Json)>, ParseError>)
    ensures r == LocaleData(file, literal)
  {
    if file.None? {
      return Err(Unreadable);
    }
    var content := file.value;
    var lit := literal(content);
    if lit.NoExport? {
      return Err(NotALocaleFile);
    }
    if lit.Parsed? {
      return Ok(lit.entries);
    }
    var fallback := ParseFallback(content);
    r := Ok(FallbackObject(fallback));
  }

  /** The records of a flat object of strings: its entries, keys as paths. */
  function AsLeaves(es: seq<(string, string)>): seq<Leaf> {
    seq(|es|, i requires 0 <= i < |es| => Leaf(es[i].0, es[i].1))
  }

  lemma {:induction false} FallbackObjectAt(es: seq<(string, string)>, i: nat)
    requires i < |es|
    ensures |FallbackObject(es)| == |es| && FallbackObject(es)[i] == (es[i].0, JString(es[i].1))
    decreases |es|
  {
    FallbackObjectLength(es);
    if i > 0 {
      FallbackObjectAt(es[1..], i - 1);
    }
  }

  lemma {:induction false} FallbackObjectLength(es: seq<(string, string)>)
    ensures |FallbackObject(es)| == |es|
    decreases |es|
  {
    if es != [] {
      FallbackObjectLength(es[1..]);
    }
  }

  /** The strings the walk finds in a fallback object are its entries, in
    * order, each under its own key. */
  lemma {:induction false} FallbackStrings(es: seq<(string, string)>, n: nat)
    requires n <= |es|
    ensures |FallbackObject(es)| == |es|
    ensures LeavesOf(JObject(FallbackObject(es)), n, "") == AsLeaves(es)[..n]
    decreases n
  {
    FallbackObjectLength(es);
    if n > 0 {
      FallbackStrings(es, n - 1);
      FallbackObjectAt(es, n - 1);
      assert AsLeaves(es)[..n] == AsLeaves(es)[..n - 1] + [Leaf(es[n - 1].0, es[n - 1].1)];
    }
  }

  // ---------------------------------------------------- validateLocaleFile

  /** One entry of the `errors` list of `validateLocaleFile`; the message
    * text is left out, the facts it is built from are kept. */
  datatype LocaleError =
    | ForbiddenScript(path: string, name: string, value: string)
    | EnglishLeakage(path: string, words: seq<string>)
    | FailedToValidate(reason: ParseError)

  /** `{ valid, errors }`. */
  datatype LocaleResult = LocaleResult(valid: bool, errors: seq<LocaleError>)

  /** The forbidden scripts of `scripts` that occur in `value`, in order. */
  function PresentScripts(value: string, scripts: seq<Script>): seq<Script> {
    Filter(scripts, sc => HasScript(value, sc))
  }

  /** The forbidden-script reports for one string, from the inner `forEach`. */
  function ScriptErrors(name: string, x: Leaf, scripts: seq<Script>): seq<LocaleError>
    decreases |scripts|
  {
    if scripts == [] then []
    else
      ScriptErrors(name, x, scripts[..|scripts| - 1]) +
      (if HasScript(x.value, scripts[|scripts| - 1]) then [ForbiddenScript(x.path, name, x.value)] else [])
  }

  /** The English report for one string: none in a Latin-script locale. */
  function EnglishErrors(lang: string, x: Leaf): seq<LocaleError> {
    if lang in LatinLocales then []
    else
      var words := LeakedWords(x.value, LocaleAllowedTerms);
      if |words| > 0 then [EnglishLeakage(x.path, words)] else []
  }

  /** Everything the outer `forEach` pushes for one string. */
  function LeafErrors(lang: string, cfg: LangConfig, x: Leaf): seq<LocaleError> {
    ScriptErrors(cfg.name, x, cfg.forbidden) + EnglishErrors(lang, x)
  }

  /** Everything the outer `forEach` pushes, string by string. */
  function LeavesErrors(lang: string, cfg: LangConfig, xs: seq<Leaf>): seq<LocaleError> {
    FlatMap(xs, x => LeafErrors(lang, cfg, x))
  }

  /** `validateLocaleFile(lang, filePath)`. */
  function ValidateLocale(lang: string, file: Option<string>, literal: string -> Literal): LocaleResult {
    match ConfigOf(lang)
    case None => LocaleResult(true, [])
    case Some(cfg) =>
      var errors :=
        match LocaleData(file, literal)
        case Err(e) => [FailedToValidate(e)]
        case Ok(es) => LeavesErrors(lang, cfg, Extract(JObject(es), ""));
      LocaleResult(errors == [], errors)
  }

  /** A string gets one forbidden-script report per forbidden script it
    * contains, each naming the string, its path and the language. */
  lemma {:induction false} ScriptErrorsPerScript(name: string, x: Leaf, scripts: seq<Script>, sc: Script)
    ensures |ScriptErrors(name, x, scripts)| == |PresentScripts(x.value, scripts)|
    ensures forall e :: e in ScriptErrors(name, x, scripts) ==> e == ForbiddenScript(x.path, name, x.value)
    ensures sc in PresentScripts(x.value, scripts) <==> sc in scripts && HasScript(x.value, sc)
    decreases |scripts|
  {
    FilterMember(scripts, s => HasScript(x.value, s), sc);
    if scripts != [] {
      ScriptErrorsPerScript(name, x, scripts[..|scripts| - 1], sc);
    }
  }

  /** A report is in the list exactly when one of the strings produced it. */
  lemma LeavesErrorsMember(lang: string, cfg: LangConfig, xs: seq<Leaf>, e: LocaleError)
    ensures e in LeavesErrors(lang, cfg, xs) <==> exists k :: 0 <= k < |xs| && e in LeafErrors(lang, cfg, xs[k])
  {
    FlatMapMember(xs, x => LeafErrors(lang, cfg, x), e);
  }

  lemma LeavesErrorsEmpty(lang: string, cfg: LangConfig, xs: seq<Leaf>)
    ensures LeavesErrors(lang, cfg, xs) == [] <==> forall k :: 0 <= k < |xs| ==> LeafErrors(lang, cfg, xs[k]) == []
  {
    FlatMapEmpty(xs, x => LeafErrors(lang, cfg, x));
  }

  /** A file is valid exactly when its language is unconfigured, or it
    * parses and no string in it draws a report. */
  lemma ValidIffClean(lang: string, file: Option<string>, literal: string -> Literal)
    ensures ValidateLocale(lang, file, literal).valid <==> ValidateLocale(lang, file, literal).errors == []
    ensures ValidateLocale(lang, file, literal).valid <==>
      ConfigOf(lang).None? ||
      (LocaleData(file, literal).Ok? &&
       var xs := Extract(JObject(LocaleData(file, literal).value), "");
       forall k :: 0 <= k < |xs| ==> LeafErrors(lang, ConfigOf(lang).value, xs[k]) == [])
  {
    if ConfigOf(lang).Some? && LocaleData(file, literal).Ok? {
      LeavesErrorsEmpty(lang, ConfigOf(lang).value, Extract(JObject(LocaleData(file, literal).value), ""));
    }
  }

  /** A file that cannot be read or parsed gets exactly one report, the
    * failure, and that report never appears otherwise. */
  lemma FailureIsAlone(lang: string, file: Option<string>, literal: string -> Literal, e: LocaleError)
    requires e in ValidateLocale(lang, file, literal).errors
    ensures e.FailedToValidate? <==> LocaleData(file, literal).Err?
    ensures e.FailedToValidate? ==>
      ValidateLocale(lang, file, literal).errors == [FailedToValidate(LocaleData(file, literal).error)]
  {
    if LocaleData(file, literal).Ok? {
      var cfg := ConfigOf(lang).value;
      var xs := Extract(JObject(LocaleData(file, literal).value), "");
      LeavesErrorsMember(lang, cfg, xs, e);
      var k :| 0 <= k < |xs| && e in LeafErrors(lang, cfg, xs[k]);
      ScriptErrorsPerScript(cfg.name, xs[k], cfg.forbidden, Hangul);
    }
  }

  /** Strings of the Latin-script locales are never checked for English,
    * and an English report names a string of the file and lists exactly
    * its reportable words. */
  lemma EnglishOnlyOutsideLatin(lang: string, file: Option<string>, literal: string -> Literal, e: LocaleError)
    requires e in ValidateLocale(lang, file, literal).errors && e.EnglishLeakage?
    ensures lang !in LatinLocales && LocaleData(file, literal).Ok?
    ensures exists x :: (x in Extract(JObject(LocaleData(file, literal).value), "") &&
      e == EnglishLeakage(x.path, LeakedWords(x.value, LocaleAllowedTerms)) && e.words != [])
  {
    var cfg := ConfigOf(lang).value;
    var xs := Extract(JObject(LocaleData(file, literal).value), "");
    LeavesErrorsMember(lang, cfg, xs, e);
    var k :| 0 <= k < |xs| && e in LeafErrors(lang, cfg, xs[k]);
    ScriptErrorsPerScript(cfg.name, xs[k], cfg.forbidden, Hangul);
    assert e in EnglishErrors(lang, xs[k]);
  }

  /** In a configured locale outside the Latin-script ones, every string
    * with a reportable word gets its English report. */
  lemma EnglishReported(lang: string, file: Option<string>, literal: string -> Literal, x: Leaf)
    requires ConfigOf(lang).Some? && lang !in LatinLocales && LocaleData(file, literal).Ok?
    requires x in Extract(JObject(LocaleData(file, literal).value), "")
    requires LeakedWords(x.value, LocaleAllowedTerms) != []
    ensures EnglishLeakage(x.path, LeakedWords(x.value, LocaleAllowedTerms)) in ValidateLocale(lang, file, literal).errors
  {
    var cfg := ConfigOf(lang).value;
    var xs := Extract(JObject(LocaleData(file, literal).value), "");
    var e := EnglishLeakage(x.path, LeakedWords(x.value, LocaleAllowedTerms));
    var k :| 0 <= k < |xs| && xs[k] == x;
    assert e in LeafErrors(lang, cfg, xs[k]);
    LeavesErrorsMember(lang, cfg, xs, e);
  }

  /** Template variables and the other allow-listed terms are never
    * reported, whatever their case. */
  lemma AllowedTermsNeverLeak(text: string, k: nat, w: string)
    requires k < |LocaleAllowedTerms| && EqualsIgnoreCase(LocaleAllowedTerms[k], w)
    ensures w !in LeakedWords(text, LocaleAllowedTerms)
  {
    LeakedWordsExactly(text, LocaleAllowedTerms, w);
  }

  lemma TemplateVariablesNeverLeak(text: string, w: string)
    requires w in TemplateVariables
    ensures w !in LeakedWords(text, LocaleAllowedTerms)
  {
    var k :| 0 <= k < |TemplateVariables| && TemplateVariables[k] == w;
    assert LocaleAllowedTerms[16 + k] == w;
    AllowedTermsNeverLeak(text, 16 + k, w);
  }

  /** The inner `forEach`: one report per forbidden script the string contains. */
  method CheckForbidden(name: string, x: Leaf, scripts: seq<Script>, errors: seq<LocaleError>)
    returns (out: seq<LocaleError>)
    ensures out == errors + ScriptErrors(name, x, scripts)
  {
    out := errors;
    var k := 0;
    while k < |scripts|
      invariant 0 <= k <= |scripts|
      invariant out == errors + ScriptErrors(name, x, scripts[..k])
    {
      assert scripts[..k + 1][..k] == scripts[..k];
      if HasScript(x.value, scripts[k]) {
        out := out + [ForbiddenScript(x.path, name, x.value)];
      }
      k := k + 1;
    }
    assert scripts[..k] == scripts;
  }

  /** `checkEnglishInclusion(value, `[${path}]`, errors)` with this file's allow-list. */
  method CheckLocaleEnglish(x: Leaf, errors: seq<LocaleError>) returns (out: seq<LocaleError>)
    ensures out == errors + (var w := LeakedWords(x.value, LocaleAllowedTerms); if |w| > 0 then [EnglishLeakage(x.path, w)] else [])
  {
    var matches := AsciiWords(x.value);
    var invalid := FilterLeaks(matches, LocaleAllowedTerms);
    out := errors;
    if |invalid| > 0 {
      out := out + [EnglishLeakage(x.path, invalid)];
    }
  }

  /** The body of the outer `forEach` for one string. */
  method CheckString(lang: string, cfg: LangConfig, x: Leaf, errors: seq<LocaleError>)
    returns (out: seq<LocaleError>)
    ensures out == errors + LeafErrors(lang, cfg, x)
  {
    out := CheckForbidden(cfg.name, x, cfg.forbidden, errors);
    if !(lang in LatinLocales) {
      out := CheckLocaleEnglish(x, out);
    }
  }

  /** `validateLocaleFile(lang, filePath)`. */
  method ValidateLocaleFile(lang: string, file: Option<string>, literal: string -> Literal)
    returns (r: LocaleResult)
    ensures r == ValidateLocale(lang, file, literal)
  {
    var config := ConfigOf(lang);
    if config.None? {
      return LocaleResult(true, []);
    }
    var cfg := config.value;
    var errors: seq<LocaleError> := [];
    var localeData := ParseLocaleFile(file, literal);
    if localeData.Err? {
      errors := errors + [FailedToValidate(localeData.error)];
    } else {
      var strings := ExtractStrings(JObject(localeData.value), "");
      errors := CheckStrings(lang, cfg, strings);
    }
    r := LocaleResult(|errors| == 0, errors);
  }

  /** `strings.forEach(...)`. */
  method CheckStrings(lang: string, cfg: LangConfig, strings: seq<Leaf>) returns (errors: seq<LocaleError>)
    ensures errors == LeavesErrors(lang, cfg, strings)
  {
    errors := [];
    var i := 0;
    while i < |strings|
      invariant 0 <= i <= |strings|
      invariant errors == LeavesErrors(lang, cfg, strings[..i])
    {
      var acc := errors;
      errors := CheckString(lang, cfg, strings[i], errors);
      FlatMapStep([], strings[..i], strings[i], x => LeafErrors(lang, cfg, x), acc, errors);
      assert strings[..i + 1] == strings[..i] + [strings[i]];
      i := i + 1;
    }
    assert strings[..i] == strings;
  }

  // ------------------------------------------------------------------ main

  /** A file of the locales directory: its name and its text, `None` when
    * it cannot be read. */
  datatype LocaleFile = LocaleFile(name: string, content: Option<string>)

  /** An entry of `allViolations`. */
  datatype FileViolations = FileViolations(file: string, lang: string, errors: seq<LocaleError>)

  /** `path.basename(file, ".ts")`: the suffix comes off unless it is the
    * whole name. */
  function LangOf(file: string): string {
    if |file| > 3 && EndsWith(file, ".ts") then file[..|file| - 3] else file
  }

  /** What one directory entry adds to `allViolations`. */
  function FileViolationsOf(f: LocaleFile, literal: string -> Literal): seq<FileViolations> {
    if !EndsWith(f.name, ".ts") then []
    else
      var r := ValidateLocale(LangOf(f.name), f.content, literal);
      if r.valid then [] else [FileViolations(f.name, LangOf(f.name), r.errors)]
  }

  /** `allViolations` after the `forEach` over the directory. */
  function ViolationsOf(files: seq<LocaleFile>, literal: string -> Literal): seq<FileViolations> {
    FlatMap(files, f => FileViolationsOf(f, literal))
  }

  /** `main()`: `dir` lists the locales directory, `None` when it is
    * missing; the result is the violations and the exit status. */
  method CheckLocales(dir: Option<seq<LocaleFile>>, literal: string -> Literal)
    returns (allViolations: seq<FileViolations>, exitCode: int)
    ensures dir.None? ==> allViolations == [] && exitCode == 1
    ensures dir.Some? ==> allViolations == ViolationsOf(dir.value, literal)
    ensures dir.Some? ==> exitCode == if allViolations == [] then 0 else 1
  {
    if dir.None? {
      return [], 1;
    }
    var files := dir.value;
    allViolations := [];
    var i := 0;
    while i < |files|
      invariant 0 <= i <= |files|
      invariant allViolations == ViolationsOf(files[..i], literal)
    {
      var file := files[i];
      var acc := allViolations;
      if EndsWith(file.name, ".ts") {
        var lang := LangOf(file.name);
        var result := ValidateLocaleFile(lang, file.content, literal);
        if !result.valid {
          allViolations := allViolations + [FileViolations(file.name, lang, result.errors)];
        }
      }
      FlatMapStep([], files[..i], file, f => FileViolationsOf(f, literal), acc, allViolations);
      assert files[..i + 1] == files[..i] + [file];
      i := i + 1;
    }
    assert files[..i] == files;
    exitCode := if |allViolations| > 0 then 1 else 0;
  }

  /** The run succeeds exactly when every `.ts` file of the directory is
    * valid. */
  lemma ViolationsEmptyIff(files: seq<LocaleFile>, literal: string -> Literal)
    ensures ViolationsOf(files, literal) == [] <==>
      forall k :: 0 <= k < |files| && EndsWith(files[k].name, ".ts") ==>
        ValidateLocale(LangOf(files[k].name), files[k].content, literal).valid
  {
    FlatMapEmpty(files, f => FileViolationsOf(f, literal));
  }

  /** Each violation entry is one invalid `.ts` file with its reports. */
  lemma ViolationsFromFiles(files: seq<LocaleFile>, literal: string -> Literal, v: FileViolations)
    requires v in ViolationsOf(files, literal)
    ensures exists k :: 0 <= k < |files| && v == FileViolations(files[k].name, LangOf(files[k].name),
      ValidateLocale(LangOf(files[k].name), files[k].content, literal).errors)
    ensures EndsWith(v.file, ".ts") && v.errors != []
  {
    FlatMapMember(files, f => FileViolationsOf(f, literal), v);
    var k :| 0 <= k < |files| && v in FileViolationsOf(files[k], literal);
    ValidIffClean(LangOf(files[k].name), files[k].content, literal);
  }
}
