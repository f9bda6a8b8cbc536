/**
 * The TTS fan-out node of the pipeline (`14_prepare_tts_requests_v2.js`, and
 * its earlier copy `12_prepare_tts_requests.js`, which does the same): every
 * dialogue line of every item becomes one speech request carrying the item's
 * data, the cleaned English line, the voice for its role and the storage path
 * of the audio file.  A value without the string method the node calls on it
 * makes the whole node fail, as a JavaScript `TypeError` does.
 */
module TtsRequests {
  import opened Common
  import opened Text
  import opened JsValues

  const TtsModel := "canopylabs/orpheus-v1-english"
  const TtsFormat := "wav"
  const TtsEndpoint := "https://api.groq.com/openai/v1/audio/speech"
  const VoiceB := "troy"
  const VoiceOther := "hannah"
  const MaxInput := 200

  /** One output item: the item's data, the fields the node writes over it,
    * and `pairedItem.item`.  `Json` gives the item's `json`. */
  datatype Request = Request(
    data: map<string, JsValue>, input: string, voice: string, lineIndex: nat,
    storagePath: string, pairedItem: nat)

  /** `{ ...data, tts_input, tts_voice, ... }`. */
  function Json(r: Request): map<string, JsValue> {
    r.data + map[
      "tts_input" := Str(r.input),
      "tts_voice" := Str(r.voice),
      "tts_line_index" := Num(r.lineIndex),
      "tts_model" := Str(TtsModel),
      "tts_format" := Str(TtsFormat),
      "tts_endpoint" := Str(TtsEndpoint),
      "storage_path" := Str(r.storagePath)]
  }

  // ------------------------------------------------------------ cleaning

  /** `replace(/\s+/g, " ")`: every run of white space becomes one space. */
  function CollapseSpace(s: string): string
    decreases |s|
  {
    if s == [] then []
    else if IsSpace(s[0]) then [' '] + CollapseSpace(s[SpaceRun(s, 0)..])
    else [s[0]] + CollapseSpace(s[1..])
  }

  /** Its only white space is single spaces. */
  predicate SingleSpaced(t: string) {
    forall i :: 0 <= i < |t| && IsSpace(t[i]) ==> t[i] == ' ' && (i + 1 == |t| || !IsSpace(t[i + 1]))
  }

  /** The text of a line before it is cut: newlines to spaces, white space
    * collapsed, then trimmed. */
  function CleanText(raw: string): string {
    Trim(CollapseSpace(ReplaceAll(raw, "\n", " ")))
  }

  /** `tts_input`: the cleaned text cut to 200 characters. */
  function TtsInput(raw: string): string {
    Prefix(CleanText(raw), MaxInput)
  }

  lemma {:induction false} CollapseSingleSpaced(s: string)
    ensures SingleSpaced(CollapseSpace(s))
    ensures s != [] ==> CollapseSpace(s) != [] && CollapseSpace(s)[0] == (if IsSpace(s[0]) then ' ' else s[0])
    decreases |s|
  {
    if s != [] {
      if IsSpace(s[0]) {
        var n := SpaceRun(s, 0);
        var rest := s[n..];
        CollapseSingleSpaced(rest);
        assert rest == [] || !IsSpace(rest[0]);
      } else {
        CollapseSingleSpaced(s[1..]);
      }
    }
  }

  /** Single-spaced text is its own collapse. */
  lemma {:induction false} CollapseOfSingleSpaced(t: string)
    requires SingleSpaced(t)
    ensures CollapseSpace(t) == t
    decreases |t|
  {
    if t != [] {
      if IsSpace(t[0]) {
        SpaceRunIs(t, 0, 1);
      }
      assert SingleSpaced(t[1..]) by {
        forall i | 0 <= i < |t| - 1 && IsSpace(t[1..][i])
          ensures t[1..][i] == ' ' && (i + 1 == |t| - 1 || !IsSpace(t[1..][i + 1]))
        {
          assert t[1..][i] == t[i + 1];
        }
      }
      CollapseOfSingleSpaced(t[1..]);
    }
  }

  /** A slice of single-spaced text is single-spaced. */
  lemma SliceSingleSpaced(t: string, a: nat, b: nat)
    requires SingleSpaced(t) && a <= b <= |t|
    ensures SingleSpaced(t[a..b])
  {
    forall i | 0 <= i < b - a && IsSpace(t[a..b][i])
      ensures t[a..b][i] == ' ' && (i + 1 == b - a || !IsSpace(t[a..b][i + 1]))
    {
      assert t[a..b][i] == t[a + i];
      if i + 1 < b - a {
        assert t[a..b][i + 1] == t[a + i + 1];
      }
    }
  }

  /** The cleaned text has no newline, no run of two blanks, and no other
    * white space than single spaces, and it neither starts nor ends with one. */
  lemma CleanTextShape(raw: string)
    ensures var t := CleanText(raw);
      SingleSpaced(t) && '\n' !in t && (t == [] || (t[0] != ' ' && t[|t| - 1] != ' '))
  {
    var c := CollapseSpace(ReplaceAll(raw, "\n", " "));
    CollapseSingleSpaced(ReplaceAll(raw, "\n", " "));
    TrimShape(c);
    var t := Trim(c);
    var a := |c| - |TrimStart(c)|;
    SliceSingleSpaced(c, a, a + |t|);
    forall i | 0 <= i < |t| ensures t[i] != '\n' {
      if IsSpace(t[i]) {}
    }
  }

  /** `tts_input` is at most 200 characters, a prefix of the cleaned text,
    * single-spaced, without newlines, and does not start with a space. */
  lemma TtsInputShape(raw: string)
    ensures var t := TtsInput(raw);
      |t| <= MaxInput && t <= CleanText(raw) && SingleSpaced(t) && '\n' !in t
      && (t == [] || t[0] != ' ')
      && (|CleanText(raw)| <= MaxInput ==> t == CleanText(raw))
  {
    var c := CleanText(raw);
    CleanTextShape(raw);
    var t := TtsInput(raw);
    SliceSingleSpaced(c, 0, |t|);
    assert t == c[0..|t|];
    forall i | 0 <= i < |t| ensures t[i] != '\n' {
      assert t[i] == c[i];
    }
    if t != [] {
      assert t[0] == c[0];
    }
  }

  /** Cleaning is idempotent: a cleaned line comes back unchanged. */
  lemma CleanTextIdempotent(raw: string)
    ensures CleanText(CleanText(raw)) == CleanText(raw)
  {
    var t := CleanText(raw);
    CleanTextShape(raw);
    ContainsChar(t, '\n');
    ReplaceAllAbsent(t, "\n", " ");
    CollapseOfSingleSpaced(t);
    if t != [] {
      assert !IsSpace(t[0]) && !IsSpace(t[|t| - 1]);
    }
    TrimOfTrimmed(t);
  }

  // ------------------------------------------------------------- one line

  /** `(v || fallback)` followed by a string method: a falsy value gives the
    * fallback, a string itself, and any other value has no such method. */
  function TextOr(v: JsValue, fallback: string): (r: Result<string, string>)
    ensures !Truthy(v) ==> r == Ok(fallback)
    ensures v.Str? ==> r.Ok? && (v.s == [] ==> r.value == fallback) && (v.s != [] ==> r.value == v.s)
    ensures r.Err? <==> Truthy(v) && !v.Str?
    ensures r.Err? ==> r.error == TypeError
  {
    if !Truthy(v) then Ok(fallback)
    else if v.Str? then Ok(v.s)
    else Err(TypeError)
  }

  /** The voice of a role already upper-cased. */
  function Voice(role: string): string {
    if role == "B" then VoiceB else VoiceOther
  }

  /** `expressions/${expressionId}/${lineIndex}.wav`. */
  function StoragePath(id: JsValue, lineIndex: nat): string {
    "expressions/" + TemplateText(id) + "/" + NatToString(lineIndex) + ".wav"
  }

  /** The English text and the role of an entry: reading a property of
    * `null` or `undefined` fails, and so does a truthy `en` or `role` that
    * is not a string. */
  function LineParts(entry: JsValue): (r: Result<(string, string), string>)
    ensures r.Err? <==>
      entry.Undefined? || entry.Null?
      || (Truthy(Get(entry, "en")) && !Get(entry, "en").Str?)
      || (Truthy(Get(entry, "role")) && !Get(entry, "role").Str?)
    ensures r.Err? ==> r.error == TypeError
  {
    if entry.Undefined? || entry.Null? then Err(TypeError)
    else
      match TextOr(Get(entry, "en"), "")
      case Err(e) => Err(e)
      case Ok(en) =>
        match TextOr(Get(entry, "role"), "A")
        case Err(e) => Err(e)
        case Ok(role) => Ok((en, role))
  }

  /** The request of a line with text `en` and role `role`. */
  function BuildRequest(data: map<string, JsValue>, en: string, role: string, lineIndex: nat, itemIndex: nat): Request {
    var id := if "id" in data then data["id"] else Undefined;
    Request(data, TtsInput(en), Voice(ToUpper(role)), lineIndex, StoragePath(id, lineIndex), itemIndex)
  }

  /** The step of the inner loop for line `lineIndex`: its one request,
    * or the failure reading the line. */
  function LineRequest(data: map<string, JsValue>, entry: JsValue, lineIndex: nat, itemIndex: nat): (r: Result<seq<Request>, string>)
    ensures r.Ok? <==> LineParts(entry).Ok?
    ensures r.Ok? ==> r.value == [BuildRequest(data, LineParts(entry).value.0, LineParts(entry).value.1, lineIndex, itemIndex)]
  {
    match LineParts(entry)
    case Err(e) => Err(e)
    case Ok(parts) => Ok([BuildRequest(data, parts.0, parts.1, lineIndex, itemIndex)])
  }

  /** The keys the node writes over the item's data. */
  const RequestKeys: set<string> := {"tts_input", "tts_voice", "tts_line_index", "tts_model", "tts_format", "tts_endpoint", "storage_path"}

  /** A request keeps every other field of the item, points back at the
    * item, and carries the cleaned text, the voice (`troy` exactly for role
    * `b` or `B`), the line index, the fixed model, format and endpoint, and
    * the storage path of the line. */
  lemma BuildRequestFields(data: map<string, JsValue>, en: string, role: string, lineIndex: nat, itemIndex: nat)
    ensures var r := BuildRequest(data, en, role, lineIndex, itemIndex);
      var json := Json(r);
      var id := if "id" in data then data["id"] else Undefined;
      r.pairedItem == itemIndex
      && json.Keys == data.Keys + RequestKeys
      && (forall k :: k in data && k !in RequestKeys ==> json[k] == data[k])
      && json["tts_input"] == Str(TtsInput(en))
      && (json["tts_voice"] == Str(VoiceB) <==> ToUpper(role) == "B")
      && (json["tts_voice"] == Str(VoiceB) || json["tts_voice"] == Str(VoiceOther))
      && json["tts_line_index"] == Num(lineIndex)
      && json["tts_model"] == Str(TtsModel) && json["tts_format"] == Str(TtsFormat)
      && json["tts_endpoint"] == Str(TtsEndpoint)
      && json["storage_path"] == Str(StoragePath(id, lineIndex))
  {
  }

  /** A missing role, an empty one and role `A` all get `hannah`; `b` and `B`
    * get `troy`. */
  lemma VoiceOfRoles()
    ensures Voice(ToUpper("A")) == VoiceOther && Voice(ToUpper("a")) == VoiceOther
    ensures Voice(ToUpper("B")) == VoiceB && Voice(ToUpper("b")) == VoiceB
    ensures TextOr(Undefined, "A") == Ok("A") && TextOr(Str(""), "A") == Ok("A")
  {
    assert ToUpper("A") == "A";
    assert ToUpper("a") == "A";
    assert ToUpper("B") == "B";
    assert ToUpper("b") == "B";
  }

  // ------------------------------------------------------------ one item

  /** `data.dialogue || []` iterated with `forEach`: an array gives its
    * items, a falsy value none, anything else has no `forEach`. */
  function Entries(data: map<string, JsValue>): (r: Result<seq<JsValue>, string>)
    ensures r.Err? ==> r.error == TypeError
  {
    var d := if "dialogue" in data then data["dialogue"] else Undefined;
    if !Truthy(d) then Ok([])
    else if d.Arr? then Ok(d.items)
    else Err(TypeError)
  }

  /** The steps of the inner loop. */
  function LineSteps(data: map<string, JsValue>, entries: seq<JsValue>, itemIndex: nat): (steps: seq<Result<seq<Request>, string>>)
    ensures |steps| == |entries|
  {
    seq(|entries|, k requires 0 <= k < |entries| => LineRequest(data, entries[k], k, itemIndex))
  }

  /** The requests of an item, line by line; the first line that cannot be
    * read fails the node. */
  function ItemRequests(data: map<string, JsValue>, itemIndex: nat): Result<seq<Request>, string> {
    match Entries(data)
    case Err(e) => Err(e)
    case Ok(entries) => Sequence(LineSteps(data, entries, itemIndex))
  }

  /** An item can be read: its dialogue is absent, falsy or an array, and
    * every line of it can be read. */
  predicate ItemOk(data: map<string, JsValue>) {
    Entries(data).Ok? && forall k :: 0 <= k < |Entries(data).value| ==> LineParts(Entries(data).value[k]).Ok?
  }

  /** The number of dialogue lines of an item. */
  function LineCount(data: map<string, JsValue>): nat {
    if Entries(data).Ok? then |Entries(data).value| else 0
  }

  /** Line `k` of an item (`undefined` past the end). */
  function EntryAt(data: map<string, JsValue>, k: nat): JsValue {
    if Entries(data).Ok? && k < |Entries(data).value| then Entries(data).value[k] else Undefined
  }

  /** The text and role of a line that can be read. */
  function PartsOf(entry: JsValue): (string, string) {
    if LineParts(entry).Ok? then LineParts(entry).value else ("", "A")
  }

  /** The request built for line `k` of an item. */
  function LineOf(data: map<string, JsValue>, k: nat, itemIndex: nat): Request {
    BuildRequest(data, PartsOf(EntryAt(data, k)).0, PartsOf(EntryAt(data, k)).1, k, itemIndex)
  }

  /** An item succeeds iff it can be read, and then gives one request per
    * line, the request of line `k` at `k`. */
  lemma ItemRequestsIs(data: map<string, JsValue>, itemIndex: nat)
    ensures ItemRequests(data, itemIndex).Ok? <==> ItemOk(data)
    ensures ItemRequests(data, itemIndex).Err? ==> ItemRequests(data, itemIndex).error == TypeError
    ensures ItemRequests(data, itemIndex).Ok? ==>
      var rs := ItemRequests(data, itemIndex).value;
      |rs| == LineCount(data) && forall k :: 0 <= k < |rs| ==> rs[k] == LineOf(data, k, itemIndex)
  {
    if Entries(data).Ok? {
      var entries := Entries(data).value;
      var steps := LineSteps(data, entries, itemIndex);
      SequenceIs(steps);
      if Sequence(steps).Ok? {
        forall k | 0 <= k < |entries| ensures LineParts(entries[k]).Ok? {
          assert steps[k] == LineRequest(data, entries[k], k, itemIndex);
        }
        var parts := OkParts(steps);
        ConcatShape(parts);
        OffsetOfSingles(parts, |parts|);
        forall k | 0 <= k < |entries| ensures Concat(parts)[k] == LineOf(data, k, itemIndex) {
          assert steps[k] == LineRequest(data, entries[k], k, itemIndex);
          assert parts[k][0] == LineOf(data, k, itemIndex);
          assert Concat(parts)[Offset(parts, k) + 0] == parts[k][0];
        }
      } else {
        var i :| 0 <= i < |steps| && steps[i] == Sequence(steps) && forall j :: 0 <= j < i ==> steps[j].Ok?;
        assert steps[i] == LineRequest(data, entries[i], i, itemIndex);
        assert !LineParts(entries[i]).Ok?;
      }
    }
  }

  /** Parts of one element each: the offset of part `n` is `n`. */
  lemma {:induction false} OffsetOfSingles<T>(parts: seq<seq<T>>, n: nat)
    requires n <= |parts| && forall i :: 0 <= i < |parts| ==> |parts[i]| == 1
    ensures forall m :: 0 <= m <= n ==> Offset(parts, m) == m
    decreases n
  {
    if n > 0 {
      OffsetOfSingles(parts, n - 1);
    }
  }

  /** Items without dialogue add no request. */
  lemma NoDialogueNoRequests(data: map<string, JsValue>, itemIndex: nat)
    requires "dialogue" !in data || !Truthy(data["dialogue"])
    ensures ItemRequests(data, itemIndex) == Ok([])
  {
  }

  // ---------------------------------------------------------- all items

  /** The steps of the outer loop. */
  function ItemSteps(items: seq<map<string, JsValue>>): (steps: seq<Result<seq<Request>, string>>)
    ensures |steps| == |items|
  {
    seq(|items|, i requires 0 <= i < |items| => ItemRequests(items[i], i))
  }

  /** The node's output: the requests of every item, item after item; the
    * first item that fails fails the node. */
  function AllRequests(items: seq<map<string, JsValue>>): Result<seq<Request>, string> {
    Sequence(ItemSteps(items))
  }

  /** How many lines the first `n` items have. */
  function LinesBefore(items: seq<map<string, JsValue>>, n: nat): nat
    requires n <= |items|
    decreases n
  {
    if n == 0 then 0 else LinesBefore(items, n - 1) + LineCount(items[n - 1])
  }

  lemma {:induction false} LinesBeforeIsOffset(items: seq<map<string, JsValue>>, parts: seq<seq<Request>>, n: nat)
    requires n <= |items| == |parts| && forall i :: 0 <= i < |items| ==> |parts[i]| == LineCount(items[i])
    ensures forall m :: 0 <= m <= n ==> LinesBefore(items, m) == Offset(parts, m)
    decreases n
  {
    if n > 0 {
      LinesBeforeIsOffset(items, parts, n - 1);
    }
  }

  /** The node fails iff some item cannot be read; otherwise it returns one
    * request per dialogue line, item by item and line by line: the request
    * of line `k` of item `i` follows the lines of the items before `i`, and
    * there are no others. */
  lemma OnePerLine(items: seq<map<string, JsValue>>)
    ensures AllRequests(items).Err? <==> exists i :: 0 <= i < |items| && !ItemOk(items[i])
    ensures AllRequests(items).Err? ==> AllRequests(items).error == TypeError
    ensures AllRequests(items).Ok? ==>
      var rs := AllRequests(items).value;
      |rs| == LinesBefore(items, |items|)
      && (forall i :: 0 <= i < |items| ==> LinesBefore(items, i) + LineCount(items[i]) <= |rs|)
      && forall i, k :: 0 <= i < |items| && 0 <= k < LineCount(items[i]) ==>
        rs[LinesBefore(items, i) + k] == LineOf(items[i], k, i)
  {
    var steps := ItemSteps(items);
    SequenceIs(steps);
    if Sequence(steps).Ok? {
      forall i | 0 <= i < |items| ensures ItemOk(items[i]) {
        ItemRequestsIs(items[i], i);
        assert steps[i] == ItemRequests(items[i], i);
      }
      var parts := OkParts(steps);
      forall i | 0 <= i < |items|
        ensures |parts[i]| == LineCount(items[i])
        && forall k :: 0 <= k < LineCount(items[i]) ==> parts[i][k] == LineOf(items[i], k, i)
      {
        PartOfItem(items, steps, parts, i);
      }
      LinesAt(items, parts);
    } else {
      var i :| 0 <= i < |steps| && steps[i] == Sequence(steps) && forall j :: 0 <= j < i ==> steps[j].Ok?;
      ItemRequestsIs(items[i], i);
      assert steps[i] == ItemRequests(items[i], i);
    }
  }

  /** The parts of the items, one after another: line `k` of item `i`
    * follows the lines of the items before `i`. */
  lemma LinesAt(items: seq<map<string, JsValue>>, parts: seq<seq<Request>>)
    requires |parts| == |items|
    requires forall i :: 0 <= i < |items| ==>
      |parts[i]| == LineCount(items[i])
      && forall k :: 0 <= k < LineCount(items[i]) ==> parts[i][k] == LineOf(items[i], k, i)
    ensures var rs := Concat(parts);
      |rs| == LinesBefore(items, |items|)
      && (forall i :: 0 <= i < |items| ==> LinesBefore(items, i) + LineCount(items[i]) <= |rs|)
      && forall i, k :: 0 <= i < |items| && 0 <= k < LineCount(items[i]) ==>
        rs[LinesBefore(items, i) + k] == LineOf(items[i], k, i)
  {
    var rs := Concat(parts);
    ConcatShape(parts);
    LinesBeforeIsOffset(items, parts, |items|);
    assert |rs| == LinesBefore(items, |items|);
    forall i | 0 <= i < |items|
      ensures LinesBefore(items, i) == Offset(parts, i)
      ensures LinesBefore(items, i) + LineCount(items[i]) <= |rs|
    {
    }
    forall i, k | 0 <= i < |items| && 0 <= k < LineCount(items[i])
      ensures rs[LinesBefore(items, i) + k] == LineOf(items[i], k, i)
    {
      assert rs[Offset(parts, i) + k] == parts[i][k];
    }
  }

  lemma PartOfItem(items: seq<map<string, JsValue>>, steps: seq<Result<seq<Request>, string>>, parts: seq<seq<Request>>, i: nat)
    requires steps == ItemSteps(items) && i < |steps| && steps[i].Ok? && parts == OkParts(steps)
    ensures |parts[i]| == LineCount(items[i])
    ensures forall k :: 0 <= k < LineCount(items[i]) ==> parts[i][k] == LineOf(items[i], k, i)
  {
    ItemRequestsIs(items[i], i);
    assert steps[i] == ItemRequests(items[i], i);
  }

  // ------------------------------------------------------------- the node

  /** The inner `forEach`: the requests of the lines of one item. */
  method PrepareLines(data: map<string, JsValue>, entries: seq<JsValue>, itemIndex: nat) returns (r: Result<seq<Request>, string>)
    ensures r == Sequence(LineSteps(data, entries, itemIndex))
  {
    ghost var steps := LineSteps(data, entries, itemIndex);
    var results: seq<Request> := [];
    var lineIndex := 0;
    while lineIndex < |entries|
      invariant 0 <= lineIndex <= |entries|
      invariant Sequence(steps[..lineIndex]) == Ok(results)
    {
      assert steps[..lineIndex + 1][..lineIndex] == steps[..lineIndex];
      var line := LineRequest(data, entries[lineIndex], lineIndex, itemIndex);
      assert steps[lineIndex] == line;
      if line.Err? {
        SequencePrefix(steps, lineIndex + 1);
        return Err(line.error);
      }
      results := results + line.value;
      lineIndex := lineIndex + 1;
    }
    assert steps[..|entries|] == steps;
    return Ok(results);
  }

  /** The whole node: the outer `forEach` over the items. */
  method PrepareTtsRequests(items: seq<map<string, JsValue>>) returns (r: Result<seq<Request>, string>)
    ensures r == AllRequests(items)
  {
    ghost var steps := ItemSteps(items);
    var results: seq<Request> := [];
    var itemIndex := 0;
    while itemIndex < |items|
      invariant 0 <= itemIndex <= |items|
      invariant Sequence(steps[..itemIndex]) == Ok(results)
    {
      assert steps[..itemIndex + 1][..itemIndex] == steps[..itemIndex];
      var data := items[itemIndex];
      var entries := Entries(data);
      if entries.Err? {
        assert steps[itemIndex] == Err(entries.error);
        SequencePrefix(steps, itemIndex + 1);
        return Err(entries.error);
      }
      var lines := PrepareLines(data, entries.value, itemIndex);
      assert steps[itemIndex] == lines;
      if lines.Err? {
        SequencePrefix(steps, itemIndex + 1);
        return Err(lines.error);
      }
      results := results + lines.value;
      itemIndex := itemIndex + 1;
    }
    assert steps[..|items|] == steps;
    return Ok(results);
  }
}
