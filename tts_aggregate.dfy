/**
 * The single-record TTS aggregation node (`15_aggregate_tts_results_v2.js`):
 * the audio files of the dialogue lines are collected into one record, a copy
 * of the prepared request of the first line without the request fields, with
 * each line's `audio_url` set to the uploaded file's path.  Also the shared
 * pieces of the id-grouped aggregation: which keys a copy drops, the path
 * normalisation and the `audio_url` write.
 *
 * The output of the request node (`$items("Prepare TTS Requests")`) is a
 * parameter, as the `json` of each of its items.  The JSON round trip of the
 * deep copy is the identity on the values modelled here.
 */
module TtsAggregate {
  import opened Common
  import opened Text
  import opened JsValues

  const Bucket := "speak-mango-en/"

  /** An input item: the upload's `json` and `pairedItem.item`, the index of
    * the request it answers. */
  datatype InItem = InItem(json: map<string, JsValue>, pairedItem: nat)

  /** The request fields a copy drops. */
  predicate Temporary(key: string) {
    StartsWith(key, "tts_") || key == "storage_path" || key == "_validation"
  }

  function WithoutTemporary(data: map<string, JsValue>): (r: map<string, JsValue>)
    ensures forall k :: k in r <==> k in data && !Temporary(k)
    ensures forall k :: k in r ==> r[k] == data[k]
  {
    map k | k in data && !Temporary(k) :: data[k]
  }

  /** `Object.keys(finalData).forEach(key => { if (...) delete finalData[key]; })`. */
  method RemoveTemporary(data: map<string, JsValue>) returns (r: map<string, JsValue>)
    ensures r == WithoutTemporary(data)
  {
    r := data;
    var keys := data.Keys;
    while keys != {}
      invariant keys <= data.Keys
      invariant forall k :: k in r <==> k in data && (k in keys || !Temporary(k))
      invariant forall k :: k in r ==> r[k] == data[k]
      decreases keys
    {
      var key :| key in keys;
      if StartsWith(key, "tts_") || key == "storage_path" || key == "_validation" {
        r := r - {key};
      }
      keys := keys - {key};
    }
    assert r.Keys == WithoutTemporary(data).Keys;
  }

  /** `if (path.startsWith(Bucket)) path = path.replace(Bucket, "")`. */
  function StripBucket(path: string): string {
    if StartsWith(path, Bucket) then ReplaceFirst(path, Bucket, "") else path
  }

  /** The bucket prefix is removed once, and a path without it is kept. */
  lemma StripBucketIs(path: string)
    ensures StartsWith(path, Bucket) ==> StripBucket(path) == path[|Bucket|..]
    ensures !StartsWith(path, Bucket) ==> StripBucket(path) == path
  {
    if StartsWith(path, Bucket) {
      assert IsAt(path, Bucket, 0);
      assert FindFrom(path, Bucket, 0) == 0;
    }
  }

  /** `item.json.Key || originalReq.storage_path`, then normalised; calling
    * `startsWith` on anything but a string fails. */
  function AudioPath(key: JsValue, storagePath: JsValue): (r: Result<string, string>)
    ensures r.Err? <==> !(if Truthy(key) then key else storagePath).Str?
    ensures Truthy(key) && key.Str? ==> r == Ok(StripBucket(key.s))
    ensures !Truthy(key) && storagePath.Str? ==> r == Ok(StripBucket(storagePath.s))
  {
    var path := if Truthy(key) then key else storagePath;
    if path.Str? then Ok(StripBucket(path.s)) else Err(TypeError)
  }

  // ------------------------------------------------------ the audio_url write

  /** The dialogue lines of a record (none unless it is an array). */
  function Lines(record: map<string, JsValue>): seq<JsValue> {
    if "dialogue" in record && record["dialogue"].Arr? then record["dialogue"].items else []
  }

  /** `if (r.dialogue && r.dialogue[idx]) r.dialogue[idx].audio_url = path`,
    * for a dialogue array, a numeric index and a line that is an object. */
  function SetAudio(record: map<string, JsValue>, idx: JsValue, path: JsValue): map<string, JsValue> {
    var lines := Lines(record);
    if "dialogue" in record && record["dialogue"].Arr? && idx.Num? && 0 <= idx.n < |lines| && lines[idx.n].Obj? then
      record["dialogue" := Arr(lines[idx.n := Obj(lines[idx.n].fields["audio_url" := path])])]
    else record
  }

  /** The write touches only `audio_url` of line `idx`: the keys, every other
    * field, the number of lines and every other line stay as they were. */
  lemma SetAudioEffect(record: map<string, JsValue>, idx: JsValue, path: JsValue)
    ensures var r := SetAudio(record, idx, path);
      r.Keys == record.Keys
      && (forall k :: k in record && k != "dialogue" ==> r[k] == record[k])
      && ("dialogue" in record && record["dialogue"].Arr? ==> r["dialogue"].Arr?)
      && |Lines(r)| == |Lines(record)|
      && (forall j :: 0 <= j < |Lines(r)| && !(idx.Num? && idx.n == j) ==> Lines(r)[j] == Lines(record)[j])
      && (forall j :: 0 <= j < |Lines(r)| ==> (Lines(r)[j].Obj? <==> Lines(record)[j].Obj?))
      && (idx.Num? && 0 <= idx.n < |Lines(record)| && Lines(record)[idx.n].Obj? ==>
        Lines(r)[idx.n] == Obj(Lines(record)[idx.n].fields["audio_url" := path]))
      && (!(idx.Num? && 0 <= idx.n < |Lines(record)| && Lines(record)[idx.n].Obj?) ==> r == record)
  {
  }

  // ------------------------------------------------------------- the node

  /** The line an item answers and its audio path: reading the request of an
    * index out of range fails. */
  function ItemAudio(item: InItem, prepared: seq<map<string, JsValue>>): Result<(JsValue, string), string> {
    if item.pairedItem >= |prepared| then Err(TypeError)
    else
      var request := prepared[item.pairedItem];
      match AudioPath(Prop(item.json, "Key"), Prop(request, "storage_path"))
      case Err(e) => Err(e)
      case Ok(path) => Ok((Prop(request, "tts_line_index"), path))
  }

  /** The `forEach` that writes the paths, one item after another. */
  function Inject(record: map<string, JsValue>, items: seq<InItem>, prepared: seq<map<string, JsValue>>): Result<map<string, JsValue>, string>
    decreases |items|
  {
    if items == [] then Ok(record)
    else
      match Inject(record, items[..|items| - 1], prepared)
      case Err(e) => Err(e)
      case Ok(r) =>
        match ItemAudio(items[|items| - 1], prepared)
        case Err(e) => Err(e)
        case Ok(target) => Ok(SetAudio(r, target.0, Str(target.1)))
  }

  /** Some item writes line `j`. */
  predicate Targeted(items: seq<InItem>, prepared: seq<map<string, JsValue>>, j: int) {
    exists i :: 0 <= i < |items| && ItemAudio(items[i], prepared).Ok? && ItemAudio(items[i], prepared).value.0 == Num(j)
  }

  /** The writes change only `dialogue`, keep its length and which lines are
    * objects, and leave every line no item targets as it was. */
  lemma {:induction false} InjectKeeps(record: map<string, JsValue>, items: seq<InItem>, prepared: seq<map<string, JsValue>>)
    requires Inject(record, items, prepared).Ok?
    ensures var r := Inject(record, items, prepared).value;
      r.Keys == record.Keys
      && (forall k :: k in record && k != "dialogue" ==> r[k] == record[k])
      && |Lines(r)| == |Lines(record)|
      && (forall j :: 0 <= j < |Lines(r)| ==> (Lines(r)[j].Obj? <==> Lines(record)[j].Obj?))
      && (forall j :: 0 <= j < |Lines(r)| && !Targeted(items, prepared, j) ==> Lines(r)[j] == Lines(record)[j])
    decreases |items|
  {
    if items != [] {
      var init := items[..|items| - 1];
      InjectKeeps(record, init, prepared);
      var prev := Inject(record, init, prepared).value;
      var target := ItemAudio(items[|items| - 1], prepared).value;
      SetAudioEffect(prev, target.0, Str(target.1));
      TargetedPrefix(items, prepared);
    }
  }

  /** A line an item of a prefix writes is written by the whole sequence. */
  lemma TargetedPrefix(items: seq<InItem>, prepared: seq<map<string, JsValue>>)
    requires items != []
    ensures forall j :: Targeted(items[..|items| - 1], prepared, j) ==> Targeted(items, prepared, j)
  {
    var init := items[..|items| - 1];
    forall j | Targeted(init, prepared, j)
      ensures Targeted(items, prepared, j)
    {
      var i :| 0 <= i < |init| && ItemAudio(init[i], prepared).Ok? && ItemAudio(init[i], prepared).value.0 == Num(j);
      assert items[i] == init[i];
    }
  }

  /** The last item's path is the one its line ends up with. */
  lemma LastWins(record: map<string, JsValue>, items: seq<InItem>, prepared: seq<map<string, JsValue>>)
    requires items != [] && Inject(record, items, prepared).Ok?
    ensures var target := ItemAudio(items[|items| - 1], prepared).value;
      var r := Inject(record, items, prepared).value;
      target.0.Num? && 0 <= target.0.n < |Lines(record)| && Lines(record)[target.0.n].Obj? ==>
        target.0.n < |Lines(r)| && Lines(r)[target.0.n].Obj? && Prop(Lines(r)[target.0.n].fields, "audio_url") == Str(target.1)
  {
    var init := items[..|items| - 1];
    InjectKeeps(record, init, prepared);
    var prev := Inject(record, init, prepared).value;
    var target := ItemAudio(items[|items| - 1], prepared).value;
    SetAudioEffect(prev, target.0, Str(target.1));
  }

  /** The node: nothing for no input; otherwise the copy of the first item's
    * request without the request fields, with the paths written, as the only
    * output record. */
  function AggregateResults(items: seq<InItem>, prepared: seq<map<string, JsValue>>): Result<seq<map<string, JsValue>>, string> {
    if items == [] then Ok([])
    else if items[0].pairedItem >= |prepared| then Err(TypeError)
    else
      match Inject(WithoutTemporary(prepared[items[0].pairedItem]), items, prepared)
      case Err(e) => Err(e)
      case Ok(finalData) => Ok([finalData])
  }

  /** One record for a non-empty input and none for an empty one; the record
    * has no request field, and every other field but `dialogue` is the
    * parent's. */
  lemma AggregateShape(items: seq<InItem>, prepared: seq<map<string, JsValue>>)
    ensures items == [] ==> AggregateResults(items, prepared) == Ok([])
    ensures AggregateResults(items, prepared).Ok? && items != [] ==>
      var out := AggregateResults(items, prepared).value;
      var parent := prepared[items[0].pairedItem];
      |out| == 1
      && (forall k :: k in out[0] <==> k in parent && !Temporary(k))
      && (forall k :: k in parent && !Temporary(k) && k != "dialogue" ==> out[0][k] == parent[k])
  {
    if items != [] && AggregateResults(items, prepared).Ok? {
      InjectKeeps(WithoutTemporary(prepared[items[0].pairedItem]), items, prepared);
    }
  }

  /** The `forEach` over the items. */
  method InjectPaths(record: map<string, JsValue>, items: seq<InItem>, prepared: seq<map<string, JsValue>>) returns (r: Result<map<string, JsValue>, string>)
    ensures r == Inject(record, items, prepared)
  {
    var finalData := record;
    var i := 0;
    while i < |items|
      invariant 0 <= i <= |items|
      invariant Inject(record, items[..i], prepared) == Ok(finalData)
    {
      assert items[..i + 1][..i] == items[..i];
      var pIdx := items[i].pairedItem;
      if pIdx >= |prepared| {
        InjectFails(record, items, prepared, i + 1);
        return Err(TypeError);
      }
      var originalReq := prepared[pIdx];
      var idx := Prop(originalReq, "tts_line_index");
      var path := if Truthy(Prop(items[i].json, "Key")) then Prop(items[i].json, "Key") else Prop(originalReq, "storage_path");
      if !path.Str? {
        InjectFails(record, items, prepared, i + 1);
        return Err(TypeError);
      }
      var p := path.s;
      if StartsWith(p, Bucket) {
        p := ReplaceFirst(p, Bucket, "");
      }
      finalData := SetAudio(finalData, idx, Str(p));
      i := i + 1;
    }
    assert items[..|items|] == items;
    return Ok(finalData);
  }

  /** A failure part way fails the whole loop. */
  lemma {:induction false} InjectFails(record: map<string, JsValue>, items: seq<InItem>, prepared: seq<map<string, JsValue>>, n: nat)
    requires n <= |items| && Inject(record, items[..n], prepared).Err?
    ensures Inject(record, items, prepared) == Err(TypeError)
    decreases |items|
  {
    if n < |items| {
      var init := items[..|items| - 1];
      assert init[..n] == items[..n];
      InjectFails(record, init, prepared, n);
    } else {
      assert items[..n] == items;
      InjectErrors(record, items, prepared);
    }
  }

  lemma {:induction false} InjectErrors(record: map<string, JsValue>, items: seq<InItem>, prepared: seq<map<string, JsValue>>)
    ensures Inject(record, items, prepared).Err? ==> Inject(record, items, prepared).error == TypeError
    decreases |items|
  {
    if items != [] {
      InjectErrors(record, items[..|items| - 1], prepared);
    }
  }

  method AggregateTtsResults(items: seq<InItem>, prepared: seq<map<string, JsValue>>) returns (r: Result<seq<map<string, JsValue>>, string>)
    ensures r == AggregateResults(items, prepared)
  {
    if |items| == 0 {
      return Ok([]);
    }
    var parentItemIndex := items[0].pairedItem;
    if parentItemIndex >= |prepared| {
      return Err(TypeError);
    }
    var finalData := RemoveTemporary(prepared[parentItemIndex]);
    var injected := InjectPaths(finalData, items, prepared);
    if injected.Err? {
      return Err(injected.error);
    }
    return Ok([injected.value]);
  }
}
