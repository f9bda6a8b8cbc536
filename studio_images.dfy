/**
 * The decisions of `scripts/generate_studio_images.py`, which captures the
 * studio page of every expression as a PNG: how `.env.local` lines set the
 * environment, which ids the sitemap yields, and which page each id is
 * captured from and to which file (or skipped).  The file system, the HTTP
 * request, the XML parser and the browser are parameters: the lines of the
 * file, the response with the `<loc>` texts of its `<url>` elements, and the
 * set of files that already exist.
 */
module StudioImages {
  import opened Common
  import opened Text
  import Proxy

  // ------------------------------------------------------------ strip

  /** Python's `str.isspace`: what `strip()` without arguments removes. */
  predicate IsPySpace(c: char) {
    var n := c as int;
    (0x09 <= n <= 0x0D) || (0x1C <= n <= 0x20) || n == 0x85 || n == 0xA0 || n == 0x1680
    || (0x2000 <= n <= 0x200A) || n == 0x2028 || n == 0x2029 || n == 0x202F
    || n == 0x205F || n == 0x3000
  }

  /** The characters a `strip` call removes: white space, or the one
    * character it is given. */
  datatype Chars = Whitespace | Only(c: char)

  predicate Drops(chars: Chars, c: char) {
    match chars
    case Whitespace => IsPySpace(c)
    case Only(d) => c == d
  }

  /** `s.lstrip(chars)`. */
  function StripLeft(s: string, chars: Chars): (r: string)
    ensures |r| <= |s|
    decreases |s|
  {
    if s != [] && Drops(chars, s[0]) then StripLeft(s[1..], chars) else s
  }

  /** `s.rstrip(chars)`. */
  function StripRight(s: string, chars: Chars): (r: string)
    ensures |r| <= |s|
    decreases |s|
  {
    if s != [] && Drops(chars, s[|s| - 1]) then StripRight(s[..|s| - 1], chars) else s
  }

  /** `s.strip(chars)`. */
  function Strip(s: string, chars: Chars): string {
    StripRight(StripLeft(s, chars), chars)
  }

  /** `lstrip` drops a prefix of such characters and stops at the first other one. */
  lemma {:induction false} StripLeftShape(s: string, chars: Chars)
    ensures var r := StripLeft(s, chars);
      r == s[|s| - |r|..] && (r == [] || !Drops(chars, r[0]))
      && forall i :: 0 <= i < |s| - |r| ==> Drops(chars, s[i])
    decreases |s|
  {
    if s != [] && Drops(chars, s[0]) {
      StripLeftShape(s[1..], chars);
    }
  }

  /** `rstrip` drops a suffix of such characters and stops at the last other one. */
  lemma {:induction false} StripRightShape(s: string, chars: Chars)
    ensures var r := StripRight(s, chars);
      r == s[..|r|] && (r == [] || !Drops(chars, r[|r| - 1]))
      && forall i :: |r| <= i < |s| ==> Drops(chars, s[i])
    decreases |s|
  {
    if s != [] && Drops(chars, s[|s| - 1]) {
      StripRightShape(s[..|s| - 1], chars);
    }
  }

  /** Stripping leaves a slice of the input that neither starts nor ends
    * with a dropped character, and everything around it is dropped. */
  lemma StripShape(s: string, chars: Chars)
    ensures var r := Strip(s, chars); var a := |s| - |StripLeft(s, chars)|;
      a + |r| <= |s| && r == s[a..a + |r|]
      && (r == [] || (!Drops(chars, r[0]) && !Drops(chars, r[|r| - 1])))
      && (forall i :: 0 <= i < a ==> Drops(chars, s[i]))
      && (forall i :: a + |r| <= i < |s| ==> Drops(chars, s[i]))
  {
    var u := StripLeft(s, chars);
    var r := StripRight(u, chars);
    StripLeftShape(s, chars);
    StripRightShape(u, chars);
    SliceOfSuffix(s, u, r, c => Drops(chars, c));
  }

  /** A prefix `r` of a suffix `u` of `s` is a slice of `s`; whatever
    * follows `r` in `u` follows it in `s`. */
  lemma SliceOfSuffix(s: string, u: string, r: string, p: char -> bool)
    requires |r| <= |u| <= |s| && u == s[|s| - |u|..] && r == u[..|r|]
    requires forall i :: |r| <= i < |u| ==> p(u[i])
    ensures var a := |s| - |u|; a + |r| <= |s| && r == s[a..a + |r|]
    ensures r != [] ==> r[0] == u[0]
    ensures forall i :: |s| - |u| + |r| <= i < |s| ==> p(s[i])
  {
    var a := |s| - |u|;
    forall i | a + |r| <= i < |s| ensures p(s[i]) {
      assert s[i] == u[i - a];
    }
  }

  /** A string that neither starts nor ends with a dropped character is
    * left as it is. */
  lemma StripNothing(s: string, chars: Chars)
    requires s == [] || (!Drops(chars, s[0]) && !Drops(chars, s[|s| - 1]))
    ensures Strip(s, chars) == s
  {
  }

  /** `value.strip('"').strip("'")`. */
  function Unquote(value: string): string {
    Strip(Strip(value, Only('"')), Only('\''))
  }

  predicate IsQuote(c: char) { c == '"' || c == '\'' }

  /** Wrapping in one more `c` on each side changes nothing that stripping
    * `c` gives. */
  lemma StripWrapped(x: string, c: char)
    ensures Strip([c] + x + [c], Only(c)) == Strip(x, Only(c))
  {
    var w := [c] + x + [c];
    assert w[1..] == x + [c];
    assert StripLeft(w, Only(c)) == StripLeft(x + [c], Only(c));
    StripAppend(x, c);
  }

  /** A trailing `c` changes nothing that stripping `c` gives. */
  lemma {:induction false} StripAppend(x: string, c: char)
    ensures Strip(x + [c], Only(c)) == Strip(x, Only(c))
    decreases |x|
  {
    if x == [] {
      assert StripLeft([c], Only(c)) == StripLeft([], Only(c));
    } else if x[0] == c {
      assert (x + [c])[1..] == x[1..] + [c];
      StripAppend(x[1..], c);
    } else {
      assert StripLeft(x + [c], Only(c)) == x + [c];
      assert (x + [c])[..|x|] == x;
    }
  }

  /** A value written in double or in single quotes loses them, when what
    * they enclose neither starts nor ends with a quote; one without quotes
    * at its ends is kept. */
  lemma UnquoteQuoted(x: string)
    requires x == [] || (!IsQuote(x[0]) && !IsQuote(x[|x| - 1]))
    ensures Unquote("\"" + x + "\"") == x
    ensures Unquote("'" + x + "'") == x
    ensures Unquote(x) == x
  {
    StripNothing(x, Only('"'));
    StripNothing(x, Only('\''));
    StripWrapped(x, '"');
    var q := "'" + x + "'";
    StripNothing(q, Only('"'));
    StripWrapped(x, '\'');
  }

  // ------------------------------------------------------- .env.local

  /** `s.find(c)`, with `|s|` for a character that does not occur. */
  function CharIndex(s: string, c: char): (i: nat)
    ensures i <= |s|
    ensures i < |s| ==> s[i] == c
    ensures forall k :: 0 <= k < i ==> s[k] != c
    decreases |s|
  {
    if s == [] then 0 else if s[0] == c then 0 else 1 + CharIndex(s[1..], c)
  }

  /** What one line of the file does: nothing, an assignment, a line with no
    * value to unpack, or an assignment the environment refuses. */
  datatype EnvLine = Blank | Assignment(key: string, value: string) | Unpackable | Refused(key: string, value: string)
  {
    /** The line raises a `ValueError`. */
    predicate Fails() {
      Unpackable? || Refused?
    }
  }

  /** `os.environ[key] = value` accepts the pair: the name is not empty and
    * neither holds a NUL character (the name holds no `=` by construction). */
  predicate Settable(key: string, value: string) {
    key != [] && '\0' !in key && '\0' !in value
  }

  /** A line is stripped; blank and `#` lines are skipped; the rest splits
    * at its first `=`, and has no value to unpack without one; the pair is
    * then set, unless the environment refuses it. */
  function ParseLine(raw: string): EnvLine {
    var line := Strip(raw, Whitespace);
    if line == [] || line[0] == '#' then Blank
    else
      var i := CharIndex(line, '=');
      if i == |line| then Unpackable
      else
        var key, value := line[..i], Unquote(line[i + 1..]);
        if Settable(key, value) then Assignment(key, value) else Refused(key, value)
  }

  /** A line is skipped exactly when it is blank or a comment once stripped,
    * cannot be unpacked exactly when it is neither and holds no `=`, and
    * otherwise pairs the text before its first `=` with the unquoted rest,
    * which may hold further `=`; the pair is assigned exactly when the
    * environment accepts it. */
  lemma ParseLineIs(raw: string)
    ensures var line := Strip(raw, Whitespace);
      var l := ParseLine(raw);
      (l.Blank? <==> line == [] || line[0] == '#')
      && (l.Unpackable? <==> line != [] && line[0] != '#' && '=' !in line)
      && ((l.Assignment? || l.Refused?) ==>
        '=' !in l.key
        && (exists rest :: line == l.key + "=" + rest && l.value == Unquote(rest))
        && (l.Assignment? <==> Settable(l.key, l.value)))
  {
    var line := Strip(raw, Whitespace);
    if line != [] && line[0] != '#' {
      var i := CharIndex(line, '=');
      if i < |line| {
        assert line == line[..i] + "=" + line[i + 1..];
        assert '=' !in line[..i] by {
          forall k | 0 <= k < i ensures line[..i][k] != '=' { }
        }
      } else {
        assert forall k :: 0 <= k < |line| ==> line[k] != '=';
      }
    }
  }

  /** A line with nothing before its `=` names no variable, so the
    * environment refuses it. */
  lemma EmptyNameRefused()
    ensures ParseLine("=x") == Refused("", "x")
  {
    StripNothing("=x", Whitespace);
    assert CharIndex("=x", '=') == 0;
    StripNothing("x", Only('"'));
    StripNothing("x", Only('\''));
  }

  /** What each line of the file does. */
  function ParsedLines(lines: seq<string>): (r: seq<EnvLine>)
    ensures |r| == |lines| && forall i :: 0 <= i < |r| ==> r[i] == ParseLine(lines[i])
  {
    seq(|lines|, i requires 0 <= i < |lines| => ParseLine(lines[i]))
  }

  /** The lines' effects in turn: each assignment is written into the
    * environment; the first line without `=`, or whose pair the environment
    * refuses, stops it with an error naming that line. */
  function Apply(env: map<string, string>, parsed: seq<EnvLine>): Result<map<string, string>, nat>
    decreases |parsed|
  {
    if parsed == [] then Ok(env)
    else
      match Apply(env, parsed[..|parsed| - 1])
      case Err(i) => Err(i)
      case Ok(e) =>
        match parsed[|parsed| - 1]
        case Blank => Ok(e)
        case Unpackable => Err(|parsed| - 1)
        case Refused(_, _) => Err(|parsed| - 1)
        case Assignment(k, v) => Ok(e[k := v])
  }

  /** `load_env_local()` on the lines of the file. */
  function LoadEnv(env: map<string, string>, lines: seq<string>): Result<map<string, string>, nat> {
    Apply(env, ParsedLines(lines))
  }

  /** Applying fails exactly when some line cannot be unpacked or is refused,
    * and then names the first such line. */
  lemma {:induction false} ApplyFails(env: map<string, string>, parsed: seq<EnvLine>)
    ensures Apply(env, parsed).Err? <==> exists i :: 0 <= i < |parsed| && parsed[i].Fails()
    ensures Apply(env, parsed).Err? ==>
      var i := Apply(env, parsed).error;
      i < |parsed| && parsed[i].Fails() && forall j :: 0 <= j < i ==> !parsed[j].Fails()
    decreases |parsed|
  {
    if parsed != [] {
      var init := parsed[..|parsed| - 1];
      ApplyFails(env, init);
      assert forall j :: 0 <= j < |init| ==> init[j] == parsed[j];
      if exists i :: 0 <= i < |parsed| && parsed[i].Fails() {
        var i :| 0 <= i < |parsed| && parsed[i].Fails();
        if i < |init| {
          assert init[i].Fails();
        }
      }
    }
  }

  /** Loading fails exactly when some line cannot be unpacked or is refused,
    * and then names the first such line. */
  lemma LoadEnvFails(env: map<string, string>, lines: seq<string>)
    ensures LoadEnv(env, lines).Err? <==> exists i :: 0 <= i < |lines| && ParseLine(lines[i]).Fails()
    ensures LoadEnv(env, lines).Err? ==>
      var i := LoadEnv(env, lines).error;
      i < |lines| && ParseLine(lines[i]).Fails()
      && forall j :: 0 <= j < i ==> !ParseLine(lines[j]).Fails()
  {
    var parsed := ParsedLines(lines);
    ApplyFails(env, parsed);
    if exists i :: 0 <= i < |lines| && ParseLine(lines[i]).Fails() {
      var i :| 0 <= i < |lines| && ParseLine(lines[i]).Fails();
      assert parsed[i].Fails();
    }
  }

  predicate Assigns(parsed: seq<EnvLine>, i: int, key: string)
    requires 0 <= i < |parsed|
  {
    parsed[i].Assignment? && parsed[i].key == key
  }

  /** The last line that assigns `key`, if any. */
  function LastAssignment(parsed: seq<EnvLine>, key: string): (r: Option<nat>)
    ensures r.Some? ==> r.value < |parsed| && Assigns(parsed, r.value, key)
    decreases |parsed|
  {
    if parsed == [] then None
    else if Assigns(parsed, |parsed| - 1, key) then Some(|parsed| - 1)
    else LastAssignment(parsed[..|parsed| - 1], key)
  }

  /** It is the last one, and there is none when it is missing. */
  lemma {:induction false} LastAssignmentIs(parsed: seq<EnvLine>, key: string)
    ensures LastAssignment(parsed, key).Some? ==>
      forall j :: LastAssignment(parsed, key).value < j < |parsed| ==> !Assigns(parsed, j, key)
    ensures LastAssignment(parsed, key).None? ==> forall i :: 0 <= i < |parsed| ==> !Assigns(parsed, i, key)
    decreases |parsed|
  {
    if parsed != [] {
      var n := |parsed| - 1;
      var init := parsed[..n];
      LastAssignmentIs(init, key);
      assert forall j :: 0 <= j < n ==> (Assigns(init, j, key) <==> Assigns(parsed, j, key)) by {
        forall j | 0 <= j < n ensures init[j] == parsed[j] { }
      }
    }
  }

  /** A line that assigns `key` with no later one like it is the last assignment. */
  lemma {:induction false} LastAssignmentAt(parsed: seq<EnvLine>, key: string, i: nat)
    requires i < |parsed| && Assigns(parsed, i, key)
    requires forall j :: i < j < |parsed| ==> !Assigns(parsed, j, key)
    ensures LastAssignment(parsed, key) == Some(i)
    decreases |parsed|
  {
    var n := |parsed| - 1;
    if i < n {
      var init := parsed[..n];
      assert init[i] == parsed[i];
      forall j | i < j < n ensures !Assigns(init, j, key) {
        assert init[j] == parsed[j];
        assert !Assigns(parsed, j, key);
      }
      LastAssignmentAt(init, key, i);
    }
  }

  /** After a successful run a key holds the value of the last line that
    * assigns it; a key no line assigns keeps what the environment had. */
  lemma {:induction false} ApplyValues(env: map<string, string>, parsed: seq<EnvLine>, key: string)
    requires Apply(env, parsed).Ok?
    ensures var e := Apply(env, parsed).value;
      match LastAssignment(parsed, key)
      case Some(i) => key in e && e[key] == parsed[i].value
      case None => (key in e <==> key in env) && (key in env ==> e[key] == env[key])
    decreases |parsed|
  {
    if parsed != [] {
      ApplyValues(env, parsed[..|parsed| - 1], key);
    }
  }

  /** After a successful load a key holds the value of the last line that
    * assigns it, whatever the lines before it said; a key no line assigns
    * keeps what the environment had. */
  lemma LoadEnvValues(env: map<string, string>, lines: seq<string>, key: string, i: nat)
    requires LoadEnv(env, lines).Ok?
    requires i < |lines| && ParseLine(lines[i]).Assignment? && ParseLine(lines[i]).key == key
    requires forall j :: i < j < |lines| ==> !(ParseLine(lines[j]).Assignment? && ParseLine(lines[j]).key == key)
    ensures key in LoadEnv(env, lines).value && LoadEnv(env, lines).value[key] == ParseLine(lines[i]).value
  {
    var parsed := ParsedLines(lines);
    ApplyValues(env, parsed, key);
    LastAssignmentAt(parsed, key, i);
  }

  lemma LoadEnvUntouched(env: map<string, string>, lines: seq<string>, key: string)
    requires LoadEnv(env, lines).Ok?
    requires forall j :: 0 <= j < |lines| ==> !(ParseLine(lines[j]).Assignment? && ParseLine(lines[j]).key == key)
    ensures key in LoadEnv(env, lines).value <==> key in env
    ensures key in env ==> LoadEnv(env, lines).value[key] == env[key]
  {
    var parsed := ParsedLines(lines);
    ApplyValues(env, parsed, key);
    assert forall j :: 0 <= j < |lines| ==> !Assigns(parsed, j, key);
  }

  /** The loop of `load_env_local` over the lines of the file. */
  method LoadEnvLocal(env: map<string, string>, lines: seq<string>) returns (r: Result<map<string, string>, nat>)
    ensures r == LoadEnv(env, lines)
  {
    ghost var parsed := ParsedLines(lines);
    var e := env;
    var i := 0;
    while i < |lines|
      invariant 0 <= i <= |lines|
      invariant Apply(env, parsed[..i]) == Ok(e)
    {
      var line := ReadLine(lines[i]);
      ApplyNext(env, parsed, i, e);
      match line {
        case Blank =>
        case Unpackable =>
          ApplyFailsAt(env, parsed, i);
          return Err(i);
        case Refused(_, _) =>
          ApplyFailsAt(env, parsed, i);
          return Err(i);
        case Assignment(key, value) =>
          e := e[key := value];
      }
      i := i + 1;
    }
    assert parsed[..|lines|] == parsed;
    r := Ok(e);
  }

  /** A run that got past the first `i` lines takes line `i` next. */
  lemma ApplyNext(env: map<string, string>, parsed: seq<EnvLine>, i: nat, e: map<string, string>)
    requires i < |parsed| && Apply(env, parsed[..i]) == Ok(e)
    ensures parsed[i].Blank? ==> Apply(env, parsed[..i + 1]) == Ok(e)
    ensures parsed[i].Assignment? ==> Apply(env, parsed[..i + 1]) == Ok(e[parsed[i].key := parsed[i].value])
  {
    assert parsed[..i + 1][..i] == parsed[..i];
  }

  /** One line of the loop: `strip`, the skip test, `split("=", 1)` and the
    * environment's test of the pair. */
  method ReadLine(raw: string) returns (parsed: EnvLine)
    ensures parsed == ParseLine(raw)
  {
    var line := Strip(raw, Whitespace);
    if line == [] || line[0] == '#' {
      return Blank;
    }
    var eq := CharIndex(line, '=');
    if eq == |line| {
      return Unpackable;
    }
    var key, value := line[..eq], Unquote(line[eq + 1..]);
    if key == [] || '\0' in key || '\0' in value {
      return Refused(key, value);
    }
    return Assignment(key, value);
  }

  /** A plain `NAME=value` line assigns the value to the name. */
  lemma PlainAssignment()
    ensures ParseLine("A=1") == Assignment("A", "1")
  {
    StripNothing("A=1", Whitespace);
    assert CharIndex("A=1", '=') == 1;
    StripNothing("1", Only('"'));
    StripNothing("1", Only('\''));
  }

  /** The load stops at a refused line, after the lines before it. */
  lemma EmptyNameStopsLoad()
    ensures LoadEnv(map[], ["A=1", "=x", "B=2"]) == Err(1)
  {
    var parsed := ParsedLines(["A=1", "=x", "B=2"]);
    PlainAssignment();
    EmptyNameRefused();
    assert parsed[..1] == [Assignment("A", "1")];
    ApplyFailsAt(map[], parsed, 1);
  }

  /** A run that gets past the first `i` lines and cannot unpack or set line
    * `i` fails there. */
  lemma {:induction false} ApplyFailsAt(env: map<string, string>, parsed: seq<EnvLine>, i: nat)
    requires i < |parsed| && Apply(env, parsed[..i]).Ok? && parsed[i].Fails()
    ensures Apply(env, parsed) == Err(i)
    decreases |parsed|
  {
    if i < |parsed| - 1 {
      var init := parsed[..|parsed| - 1];
      assert init[..i] == parsed[..i];
      ApplyFailsAt(env, init, i);
    } else {
      assert parsed[..|parsed| - 1] == parsed[..i];
    }
  }

  const DefaultBaseUrl := "http://localhost:3000"

  /** `BASE_URL`: `STUDIO_APP_URL` from the environment, or the local server. */
  function BaseUrl(env: map<string, string>): (r: string)
    ensures "STUDIO_APP_URL" in env ==> r == env["STUDIO_APP_URL"]
    ensures "STUDIO_APP_URL" !in env ==> r == DefaultBaseUrl
  {
    if "STUDIO_APP_URL" in env then env["STUDIO_APP_URL"] else DefaultBaseUrl
  }

  // ----------------------------------------------------- authentication

  const DefaultAdminUser := "admin"
  const DefaultAdminPassword := "speakmango1234"

  /** `ADMIN_USER` and `ADMIN_PASSWORD`, each with its default. */
  function AdminUser(env: map<string, string>): string {
    if "ADMIN_USER" in env then env["ADMIN_USER"] else DefaultAdminUser
  }

  function AdminPassword(env: map<string, string>): string {
    if "ADMIN_PASSWORD" in env then env["ADMIN_PASSWORD"] else DefaultAdminPassword
  }

  /** `get_auth_header()`: `Basic` and the base64 encoding (`b64encode`) of
    * `user:password`. */
  function AuthHeader(env: map<string, string>, b64encode: string -> string): string {
    "Basic " + b64encode(AdminUser(env) + ":" + AdminPassword(env))
  }

  /** The script's header passes the studio's Basic authentication of a
    * server configured with the same user and password, when `atob` undoes
    * the encoding and neither credential holds a `:`. */
  lemma AuthHeaderAccepted(env: map<string, string>, b64encode: string -> string, atob: string -> Option<string>)
    requires ':' !in AdminUser(env) && ':' !in AdminPassword(env)
    requires var credentials := AdminUser(env) + ":" + AdminPassword(env);
      ' ' !in b64encode(credentials) && atob(b64encode(credentials)) == Some(credentials)
    ensures Proxy.StudioAuth(Some(AuthHeader(env, b64encode)),
      Proxy.Env(Some(AdminUser(env)), Some(AdminPassword(env))), atob) == Proxy.Authorized
  {
    var credentials := AdminUser(env) + ":" + AdminPassword(env);
    Proxy.StudioAcceptsCredentials(b64encode(credentials), AdminUser(env), AdminPassword(env), atob);
  }

  /** Without either variable in the environment the header carries the
    * defaults. */
  lemma DefaultCredentials(env: map<string, string>, b64encode: string -> string)
    requires "ADMIN_USER" !in env && "ADMIN_PASSWORD" !in env
    ensures AuthHeader(env, b64encode) == "Basic " + b64encode("admin:speakmango1234")
  {
    assert AdminUser(env) + ":" + AdminPassword(env) == "admin:speakmango1234";
  }

  // ---------------------------------------------------------- sitemap

  /** The index of the last `/` in `s`, or `-1`. */
  function LastSlash(s: string): (r: int)
    ensures -1 <= r < |s|
    ensures r >= 0 ==> s[r] == '/'
    ensures forall k :: r < k < |s| ==> s[k] != '/'
    decreases |s|
  {
    if s == [] then -1 else if s[|s| - 1] == '/' then |s| - 1 else LastSlash(s[..|s| - 1])
  }

  const ExpressionsPath := "/expressions/"

  /** `re.search(r'/expressions/([^/]+)$', loc)`: the last path segment,
    * when it is not empty and follows `/expressions/`. */
  function ExpressionId(loc: string): Option<string> {
    var j := LastSlash(loc);
    if j >= 0 && j + 1 < |loc| && EndsWith(loc[..j + 1], ExpressionsPath) then Some(loc[j + 1..]) else None
  }

  /** A location yields `seg` exactly when it ends in `/expressions/` and
    * `seg`, a non-empty text without `/`. */
  lemma ExpressionIdIff(loc: string, seg: string)
    ensures ExpressionId(loc) == Some(seg) <==>
      seg != [] && '/' !in seg && exists p :: loc == p + ExpressionsPath + seg
  {
    if ExpressionId(loc) == Some(seg) {
      ExpressionIdShape(loc);
    }
    if seg != [] && '/' !in seg && exists p :: loc == p + ExpressionsPath + seg {
      var p :| loc == p + ExpressionsPath + seg;
      ExpressionIdOf(p, seg);
    }
  }

  /** What a location yields is its last segment, after `/expressions/`. */
  lemma ExpressionIdShape(loc: string)
    requires ExpressionId(loc).Some?
    ensures var seg := ExpressionId(loc).value;
      seg != [] && '/' !in seg && exists p :: loc == p + ExpressionsPath + seg
  {
    var j := LastSlash(loc);
    var seg := loc[j + 1..];
    var p := loc[..j + 1 - |ExpressionsPath|];
    assert loc[..j + 1] == p + ExpressionsPath;
    assert loc == loc[..j + 1] + seg;
    forall k | 0 <= k < |seg| ensures seg[k] != '/' {
      assert seg[k] == loc[j + 1 + k];
    }
  }

  /** A location ending in `/expressions/` and a segment yields that segment. */
  lemma ExpressionIdOf(p: string, seg: string)
    requires seg != [] && '/' !in seg
    ensures ExpressionId(p + ExpressionsPath + seg) == Some(seg)
  {
    var loc := p + ExpressionsPath + seg;
    var a := |p| + |ExpressionsPath|;
    assert loc[a - 1] == '/';
    forall k | a <= k < |loc| ensures loc[k] != '/' {
      assert loc[k] == seg[k - a];
    }
    var j := LastSlash(loc);
    assert j == a - 1;
    assert loc[..j + 1] == p + ExpressionsPath;
    assert loc[j + 1..] == seg;
  }

  /** What the sitemap request gives: no response at all (the request
    * raised), or a status and, when the body parses as XML, the `<loc>`
    * text of each `<url>` element (`None` for one without a `<loc>` or
    * with an empty one). */
  datatype SitemapResponse =
    | NoResponse
    | Response(status: int, urls: Option<seq<Option<string>>>)

  /** The id a location yields, as a list of none or one. */
  function LocId(loc: string): seq<string> {
    match ExpressionId(loc)
    case Some(id) => [id]
    case None => []
  }

  /** The ids of the `<url>` elements, in document order, skipping the
    * locations that yield none; `None` once an element has no location,
    * which raises inside the loop. */
  function UrlIds(urls: seq<Option<string>>): Option<seq<string>>
    decreases |urls|
  {
    if urls == [] then Some([])
    else
      match UrlIds(urls[..|urls| - 1])
      case None => None
      case Some(ids) =>
        match urls[|urls| - 1]
        case None => None
        case Some(loc) => Some(ids + LocId(loc))
  }

  /** The ids are missing exactly when some element has no location. */
  lemma {:induction false} UrlIdsMissingIff(urls: seq<Option<string>>)
    ensures UrlIds(urls).None? <==> exists k :: 0 <= k < |urls| && urls[k].None?
    decreases |urls|
  {
    if urls != [] {
      var n := |urls| - 1;
      var init := urls[..n];
      UrlIdsMissingIff(init);
      if exists k :: 0 <= k < |urls| && urls[k].None? {
        var k :| 0 <= k < |urls| && urls[k].None?;
        if k < n {
          assert init[k].None?;
        }
      }
      if exists k :: 0 <= k < n && init[k].None? {
        var k :| 0 <= k < n && init[k].None?;
        assert urls[k].None?;
      }
    }
  }

  /** Every id a location yields is listed. */
  lemma {:induction false} UrlIdsHas(urls: seq<Option<string>>, k: nat)
    requires UrlIds(urls).Some? && k < |urls| && urls[k].Some?
    ensures ExpressionId(urls[k].value).Some? ==> ExpressionId(urls[k].value).value in UrlIds(urls).value
    decreases |urls|
  {
    var n := |urls| - 1;
    var init := urls[..n];
    if k < n {
      assert init[k] == urls[k];
      UrlIdsHas(init, k);
    }
  }

  /** Every id listed comes from a location that yields it. */
  lemma {:induction false} UrlIdsOnly(urls: seq<Option<string>>, id: string)
    requires UrlIds(urls).Some? && id in UrlIds(urls).value
    ensures exists k :: 0 <= k < |urls| && urls[k].Some? && id in LocId(urls[k].value)
    decreases |urls|
  {
    var n := |urls| - 1;
    var init := urls[..n];
    if id in UrlIds(init).value {
      UrlIdsOnly(init, id);
      var k :| 0 <= k < n && init[k].Some? && id in LocId(init[k].value);
      assert init[k] == urls[k];
    }
  }

  /** The ids of two runs of elements are those of the first, then those
    * of the second. */
  lemma {:induction false} UrlIdsAppend(xs: seq<Option<string>>, ys: seq<Option<string>>)
    requires UrlIds(xs).Some? && UrlIds(ys).Some?
    ensures UrlIds(xs + ys) == Some(UrlIds(xs).value + UrlIds(ys).value)
    decreases |ys|
  {
    if ys == [] {
      assert xs + ys == xs;
      assert UrlIds(xs).value + [] == UrlIds(xs).value;
    } else {
      var init := ys[..|ys| - 1];
      UrlIdsAppend(xs, init);
      UrlIdsLast(xs, ys);
      var extra := LocId(ys[|ys| - 1].value);
      assert UrlIds(xs).value + UrlIds(init).value + extra == UrlIds(xs).value + (UrlIds(init).value + extra);
    }
  }

  /** The last element of `xs + ys` is the last of `ys`, after `xs` and the rest of `ys`. */
  lemma UrlIdsLast(xs: seq<Option<string>>, ys: seq<Option<string>>)
    requires ys != [] && ys[|ys| - 1].Some?
    requires UrlIds(xs + ys[..|ys| - 1]).Some? && UrlIds(ys[..|ys| - 1]).Some?
    ensures UrlIds(ys) == Some(UrlIds(ys[..|ys| - 1]).value + LocId(ys[|ys| - 1].value))
    ensures UrlIds(xs + ys) == Some(UrlIds(xs + ys[..|ys| - 1]).value + LocId(ys[|ys| - 1].value))
  {
    assert (xs + ys)[..|xs + ys| - 1] == xs + ys[..|ys| - 1];
    assert (xs + ys)[|xs + ys| - 1] == ys[|ys| - 1];
  }

  /** `raise_for_status()` raises for client and server errors. */
  predicate ErrorStatus(status: int) { 400 <= status < 600 }

  /** `fetch_sitemap_urls`: every failure (a 404, an error status, a body
    * that is not XML, a `<url>` without a location) gives the empty list. */
  function SitemapIds(response: SitemapResponse): seq<string> {
    match response
    case NoResponse => []
    case Response(status, urls) =>
      if status == 404 || ErrorStatus(status) || urls.None? then []
      else match UrlIds(urls.value) case None => [] case Some(ids) => ids
  }

  /** The ids a sitemap yields are non-empty path segments, each from the
    * location of some element; a 404 yields none. */
  lemma SitemapIdsShape(response: SitemapResponse, id: string)
    ensures response.Response? && response.status == 404 ==> SitemapIds(response) == []
    ensures id in SitemapIds(response) ==>
      id != [] && '/' !in id
      && response.Response? && response.urls.Some?
      && exists k :: 0 <= k < |response.urls.value| && response.urls.value[k].Some?
                     && (exists p :: response.urls.value[k].value == p + ExpressionsPath + id)
  {
    if id in SitemapIds(response) {
      var urls := response.urls.value;
      UrlIdsMissingIff(urls);
      UrlIdsOnly(urls, id);
      var k :| 0 <= k < |urls| && urls[k].Some? && id in LocId(urls[k].value);
      ExpressionIdIff(urls[k].value, id);
    }
  }

  /** The loop over the `<url>` elements. */
  method FetchSitemapIds(response: SitemapResponse) returns (ids: seq<string>)
    ensures ids == SitemapIds(response)
  {
    if response.NoResponse? || response.status == 404 || ErrorStatus(response.status) || response.urls.None? {
      return [];
    }
    var found := CollectIds(response.urls.value);
    ids := if found.Some? then found.value else [];
  }

  /** The loop over the `<url>` elements: the ids in order, or `None` at the
    * first element without a location. */
  method CollectIds(urls: seq<Option<string>>) returns (r: Option<seq<string>>)
    ensures r == UrlIds(urls)
  {
    var ids := [];
    var i := 0;
    while i < |urls|
      invariant 0 <= i <= |urls|
      invariant UrlIds(urls[..i]) == Some(ids)
    {
      if urls[i].None? {
        UrlIdsMissing(urls, i);
        return None;
      }
      UrlIdsNext(urls, i);
      var id := ExpressionId(urls[i].value);
      if id.Some? {
        ids := ids + [id.value];
      } else {
        assert ids + [] == ids;
      }
      i := i + 1;
    }
    assert urls[..|urls|] == urls;
    return Some(ids);
  }

  /** A run that got past the first `i` elements adds the id of element `i`, if any. */
  lemma UrlIdsNext(urls: seq<Option<string>>, i: nat)
    requires i < |urls| && urls[i].Some? && UrlIds(urls[..i]).Some?
    ensures UrlIds(urls[..i + 1]) == Some(UrlIds(urls[..i]).value + LocId(urls[i].value))
  {
    assert urls[..i + 1][..i] == urls[..i];
  }

  /** An element without a location loses all the ids. */
  lemma UrlIdsMissing(urls: seq<Option<string>>, i: nat)
    requires i < |urls| && urls[i].None?
    ensures UrlIds(urls).None?
  {
    UrlIdsMissingIff(urls);
  }

  // ----------------------------------------------------- the captures

  const StudioPath := "/studio"

  const DefaultOutputDir := "studio_images"

  /** `if lang:` — an argument given and not empty. */
  predicate HasLang(lang: Option<string>) { lang.Some? && lang.value != [] }

  /** The studio page of an expression, with `?lang=` when a language is given. */
  function StudioUrl(baseUrl: string, id: string, lang: Option<string>): string {
    baseUrl + StudioPath + "/" + id + (if HasLang(lang) then "?lang=" + lang.value else "")
  }

  /** After the base URL the page path is `/studio/<id>`, and the query,
    * when there is one, starts right after the id, so an id without `?`
    * is passed whole. */
  lemma StudioUrlParts(baseUrl: string, id: string, lang: Option<string>)
    requires '?' !in id
    ensures var rest := StudioUrl(baseUrl, id, lang)[|baseUrl|..];
      var q := CharIndex(rest, '?');
      rest[..q] == "/studio/" + id
      && (HasLang(lang) ==> rest[q..] == "?lang=" + lang.value)
      && (!HasLang(lang) ==> q == |rest|)
  {
    var url := StudioUrl(baseUrl, id, lang);
    var rest := url[|baseUrl|..];
    var path := "/studio/" + id;
    var tail := if HasLang(lang) then "?lang=" + lang.value else "";
    assert rest == path + tail;
    assert forall k :: 0 <= k < |path| ==> rest[k] != '?' by {
      forall k | 0 <= k < |path| ensures rest[k] != '?' {
        assert rest[k] == path[k];
        if k >= 8 {
          assert path[k] == id[k - 8];
        }
      }
    }
    if HasLang(lang) {
      assert rest[|path|] == '?';
    }
  }

  /** `os.path.join(a, b)`: an absolute `b` replaces `a`; otherwise a
    * separator is added unless `a` is empty or already ends with one. */
  function PathJoin(a: string, b: string): string {
    if StartsWith(b, "/") then b
    else if a == [] || EndsWith(a, "/") then a + b
    else a + "/" + b
  }

  /** The directory the images go to: a subdirectory per language. */
  function OutputDir(lang: Option<string>): string {
    if HasLang(lang) then PathJoin(DefaultOutputDir, lang.value) else DefaultOutputDir
  }

  function OutputPath(outputDir: string, id: string): string {
    PathJoin(outputDir, id + ".png")
  }

  /** For a relative language code without a trailing `/`, the image of an
    * id from the sitemap is `studio_images/<lang>/<id>.png`; without a
    * language it is `studio_images/<id>.png`. */
  lemma OutputPathIs(lang: Option<string>, id: string)
    requires id != [] && id[0] != '/'
    requires HasLang(lang) ==> lang.value[0] != '/' && lang.value[|lang.value| - 1] != '/'
    ensures HasLang(lang) ==> OutputPath(OutputDir(lang), id) == DefaultOutputDir + "/" + lang.value + "/" + id + ".png"
    ensures !HasLang(lang) ==> OutputPath(OutputDir(lang), id) == DefaultOutputDir + "/" + id + ".png"
  {
    var f := id + ".png";
    assert !StartsWith(f, "/") by {
      assert f[0] == id[0];
    }
    if HasLang(lang) {
      var l := lang.value;
      assert !StartsWith(l, "/");
      var dir := DefaultOutputDir + "/" + l;
      assert dir[|dir| - 1] == l[|l| - 1];
      assert !EndsWith(dir, "/");
    }
  }

  /** What happens to one id: an image that already exists is skipped
    * without visiting the page; otherwise the studio page is captured to
    * the image's path. */
  datatype Capture = Skip(path: string) | Visit(url: string, path: string)

  function CaptureOf(baseUrl: string, id: string, lang: Option<string>, existing: set<string>): Capture {
    var path := OutputPath(OutputDir(lang), id);
    if path in existing then Skip(path) else Visit(StudioUrl(baseUrl, id, lang), path)
  }

  /** A run of the script: nothing when the sitemap yields no id, otherwise
    * one capture per id. */
  datatype Run = NoExpressions | Captures(captures: seq<Capture>)

  function StudioRun(env: map<string, string>, response: SitemapResponse, lang: Option<string>, existing: set<string>): (r: Run)
    ensures r.NoExpressions? <==> SitemapIds(response) == []
    ensures r.Captures? ==> |r.captures| == |SitemapIds(response)|
    ensures r.Captures? ==> forall k :: 0 <= k < |r.captures| ==>
      var path := OutputPath(OutputDir(lang), SitemapIds(response)[k]);
      r.captures[k].path == path
      && (r.captures[k].Skip? <==> path in existing)
      && (r.captures[k].Visit? ==> r.captures[k].url == StudioUrl(BaseUrl(env), SitemapIds(response)[k], lang))
  {
    var ids := SitemapIds(response);
    if ids == [] then NoExpressions
    else Captures(seq(|ids|, k requires 0 <= k < |ids| => CaptureOf(BaseUrl(env), ids[k], lang, existing)))
  }

  /** `main(lang)` from the environment the file has set up: the ids, then
    * one capture per id, each deciding against the files that exist. */
  method GenerateStudioImages(env: map<string, string>, response: SitemapResponse, lang: Option<string>, existing: set<string>)
    returns (run: Run)
    ensures run == StudioRun(env, response, lang, existing)
  {
    var ids := FetchSitemapIds(response);
    if ids == [] {
      return NoExpressions;
    }
    var captures := CaptureAll(BaseUrl(env), ids, lang, existing);
    run := Captures(captures);
  }

  /** The loop over the ids: one capture per id, in order. */
  method CaptureAll(baseUrl: string, ids: seq<string>, lang: Option<string>, existing: set<string>)
    returns (captures: seq<Capture>)
    ensures captures == seq(|ids|, k requires 0 <= k < |ids| => CaptureOf(baseUrl, ids[k], lang, existing))
  {
    var outputDir := if HasLang(lang) then PathJoin(DefaultOutputDir, lang.value) else DefaultOutputDir;
    assert outputDir == OutputDir(lang);
    captures := [];
    var i := 0;
    while i < |ids|
      invariant 0 <= i <= |ids|
      invariant |captures| == i
      invariant forall k :: 0 <= k < i ==> captures[k] == CaptureOf(baseUrl, ids[k], lang, existing)
    {
      var path := PathJoin(outputDir, ids[i] + ".png");
      var capture: Capture;
      if path in existing {
        capture := Skip(path);
      } else {
        capture := Visit(StudioUrl(baseUrl, ids[i], lang), path);
      }
      assert capture == CaptureOf(baseUrl, ids[i], lang, existing);
      captures := captures + [capture];
      i := i + 1;
    }
  }
}
