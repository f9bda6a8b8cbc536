/**
 * The id-grouped TTS aggregation node (`17_aggregate_tts_v2.js`): the audio
 * uploads are grouped by the `id` of their expression, in the order the ids
 * first appear; each group starts as a copy of its first upload without the
 * request and upload fields, and every upload writes its path into the
 * `audio_url` of the dialogue line its request was for.
 *
 * The node first walks the uploads once reading each one's request; that
 * pass produces nothing but can fail on an index out of range, and is
 * modelled as the check it amounts to.
 */
module TtsGroups {
  import opened Common
  import opened Text
  import opened JsValues
  import opened TtsAggregate

  /** The fields a group's seed drops: the request fields and the upload's `Key`. */
  predicate Dropped(key: string) {
    Temporary(key) || key == "Key"
  }

  function Seed(data: map<string, JsValue>): (r: map<string, JsValue>)
    ensures forall k :: k in r <==> k in data && !Dropped(k)
    ensures forall k :: k in r ==> r[k] == data[k]
  {
    map k | k in data && !Dropped(k) :: data[k]
  }

  /** The copy and the `delete`s that make a seed. */
  method SeedCopy(data: map<string, JsValue>) returns (r: map<string, JsValue>)
    ensures r == Seed(data)
  {
    r := data;
    var keys := data.Keys;
    while keys != {}
      invariant keys <= data.Keys
      invariant forall k :: k in r <==> k in data && (k in keys || !Dropped(k))
      invariant forall k :: k in r ==> r[k] == data[k]
      decreases keys
    {
      var key :| key in keys;
      if StartsWith(key, "tts_") || key == "storage_path" || key == "_validation" || key == "Key" {
        r := r - {key};
      }
      keys := keys - {key};
    }
    assert r.Keys == Seed(data).Keys;
  }

  /** The group of an upload: its `id` as an object key. */
  function GroupKey(item: InItem): string {
    TemplateText(Prop(item.json, "id"))
  }

  function Ids(items: seq<InItem>): (ids: seq<string>)
    ensures |ids| == |items| && forall i :: 0 <= i < |items| ==> ids[i] == GroupKey(items[i])
  {
    seq(|items|, i requires 0 <= i < |items| => GroupKey(items[i]))
  }

  /** The first upload of a group. */
  function FirstIndex(ids: seq<string>, key: string): (i: nat)
    requires key in ids
    ensures i < |ids| && ids[i] == key && forall j :: 0 <= j < i ==> ids[j] != key
  {
    if ids[0] == key then 0 else 1 + FirstIndex(ids[1..], key)
  }

  /** `finalizedResults`: the ids in insertion order and each id's record. */
  datatype Groups = Groups(order: seq<string>, records: map<string, map<string, JsValue>>)

  /** `data.Key || originalReq.storage_path`; a truthy path must be a string
    * and loses the bucket prefix, a falsy one is written as it is. */
  function LinePath(item: InItem, request: map<string, JsValue>): Result<JsValue, string> {
    var path := if Truthy(Prop(item.json, "Key")) then Prop(item.json, "Key") else Prop(request, "storage_path");
    if !Truthy(path) then Ok(path)
    else if path.Str? then Ok(Str(StripBucket(path.s)))
    else Err(TypeError)
  }

  /** An upload the second pass handles without failing. */
  predicate Handled(item: InItem, prepared: seq<map<string, JsValue>>) {
    item.pairedItem < |prepared| && LinePath(item, prepared[item.pairedItem]).Ok?
  }

  /** One step of the second pass. */
  function AddUpload(g: Groups, item: InItem, prepared: seq<map<string, JsValue>>): Result<Groups, string> {
    var key := GroupKey(item);
    var seeded := if key in g.records then g else Groups(g.order + [key], g.records[key := Seed(item.json)]);
    if item.pairedItem >= |prepared| then Err(TypeError)
    else
      var request := prepared[item.pairedItem];
      match LinePath(item, request)
      case Err(e) => Err(e)
      case Ok(path) =>
        Ok(Groups(seeded.order, seeded.records[key := SetAudio(seeded.records[key], Prop(request, "tts_line_index"), path)]))
  }

  /** The second pass over the uploads. */
  function Grouped(items: seq<InItem>, prepared: seq<map<string, JsValue>>): Result<Groups, string>
    decreases |items|
  {
    if items == [] then Ok(Groups([], map[]))
    else
      match Grouped(items[..|items| - 1], prepared)
      case Err(e) => Err(e)
      case Ok(g) => AddUpload(g, items[|items| - 1], prepared)
  }

  /** `Object.values(finalizedResults)`, in insertion order. */
  function Values(g: Groups): (out: seq<map<string, JsValue>>)
    ensures |out| == |g.order|
  {
    seq(|g.order|, j requires 0 <= j < |g.order| => if g.order[j] in g.records then g.records[g.order[j]] else map[])
  }

  /** Every upload's request index is in range: the first pass's only effect. */
  predicate PairedInRange(items: seq<InItem>, prepared: seq<map<string, JsValue>>) {
    forall i :: 0 <= i < |items| ==> items[i].pairedItem < |prepared|
  }

  /** The node. */
  function AggregateById(items: seq<InItem>, prepared: seq<map<string, JsValue>>): Result<seq<map<string, JsValue>>, string> {
    if items == [] then Ok([])
    else if !PairedInRange(items, prepared) then Err(TypeError)
    else
      match Grouped(items, prepared)
      case Err(e) => Err(e)
      case Ok(g) => Ok(Values(g))
  }

  // -------------------------------------------------------------- properties

  /** A record of a group agrees with its seed on every field but the dialogue
    * lines' `audio_url`. */
  predicate SeededBy(record: map<string, JsValue>, seed: map<string, JsValue>) {
    record.Keys == seed.Keys
    && (forall k :: k in seed && k != "dialogue" ==> record[k] == seed[k])
    && |Lines(record)| == |Lines(seed)|
  }

  lemma SetAudioKeepsSeed(record: map<string, JsValue>, seed: map<string, JsValue>, idx: JsValue, path: JsValue)
    requires SeededBy(record, seed)
    ensures SeededBy(SetAudio(record, idx, path), seed)
  {
    SetAudioEffect(record, idx, path);
  }

  /** The pass fails exactly when some upload's request index is out of
    * range or its path is truthy but not a string, and always as a `TypeError`. */
  lemma {:induction false} GroupedOk(items: seq<InItem>, prepared: seq<map<string, JsValue>>)
    ensures Grouped(items, prepared).Ok? <==> forall i :: 0 <= i < |items| ==> Handled(items[i], prepared)
    ensures Grouped(items, prepared).Err? ==> Grouped(items, prepared).error == TypeError
    decreases |items|
  {
    if items != [] {
      var init := items[..|items| - 1];
      GroupedOk(init, prepared);
      AllHandledSnoc(items, prepared);
      if Grouped(init, prepared).Ok? {
        AddUploadOk(Grouped(init, prepared).value, items[|items| - 1], prepared);
      }
    }
  }

  predicate AllHandled(items: seq<InItem>, prepared: seq<map<string, JsValue>>) {
    forall i :: 0 <= i < |items| ==> Handled(items[i], prepared)
  }

  /** Every upload is handled exactly when all but the last are and the last is. */
  lemma AllHandledSnoc(items: seq<InItem>, prepared: seq<map<string, JsValue>>)
    requires items != []
    ensures AllHandled(items, prepared) <==>
      AllHandled(items[..|items| - 1], prepared) && Handled(items[|items| - 1], prepared)
  {
    assert forall i :: 0 <= i < |items| - 1 ==> items[..|items| - 1][i] == items[i];
  }

  lemma AddUploadOk(g: Groups, item: InItem, prepared: seq<map<string, JsValue>>)
    ensures AddUpload(g, item, prepared).Ok? <==> Handled(item, prepared)
    ensures AddUpload(g, item, prepared).Err? ==> AddUpload(g, item, prepared).error == TypeError
  {
  }

  /** The groups after the uploads `items`: the distinct ids in
    * first-appearance order, each with a record seeded from that id's first
    * upload. */
  ghost predicate Shaped(g: Groups, items: seq<InItem>) {
    g.order == Dedupe(Ids(items))
    && (forall key :: key in g.records <==> key in g.order)
    && forall key :: key in g.records ==>
      SeededFirst(g.records[key], items, key)
  }

  /** The record of `key` agrees with the seed of that id's first upload. */
  ghost predicate SeededFirst(record: map<string, JsValue>, items: seq<InItem>, key: string) {
    key in Ids(items) && SeededBy(record, Seed(items[FirstIndex(Ids(items), key)].json))
  }

  lemma {:induction false} GroupedShape(items: seq<InItem>, prepared: seq<map<string, JsValue>>)
    requires Grouped(items, prepared).Ok?
    ensures Shaped(Grouped(items, prepared).value, items)
    decreases |items|
  {
    if items != [] {
      var init := items[..|items| - 1];
      GroupedShape(init, prepared);
      AddUploadShape(Grouped(init, prepared).value, items, prepared);
    }
  }

  /** One upload keeps the groups shaped. */
  lemma AddUploadShape(g: Groups, items: seq<InItem>, prepared: seq<map<string, JsValue>>)
    requires items != [] && Shaped(g, items[..|items| - 1]) && AddUpload(g, items[|items| - 1], prepared).Ok?
    ensures Shaped(AddUpload(g, items[|items| - 1], prepared).value, items)
  {
    var item := items[|items| - 1];
    var r := AddUpload(g, item, prepared).value;
    ShapedMember(g, items[..|items| - 1], GroupKey(item));
    AddUploadOrder(g, items, prepared);
    forall k | k in r.records
      ensures SeededFirst(r.records[k], items, k)
    {
      if k == GroupKey(item) {
        AddUploadKey(g, items, prepared);
      } else {
        assert k in g.records;
        AddUploadOther(g, items, prepared, k);
      }
    }
  }

  /** A shaped group has a record for exactly the ids seen. */
  lemma ShapedMember(g: Groups, items: seq<InItem>, key: string)
    requires Shaped(g, items)
    ensures key in g.records <==> key in Ids(items)
  {
    DedupeProperties(Ids(items));
  }

  lemma AddUploadOrder(g: Groups, items: seq<InItem>, prepared: seq<map<string, JsValue>>)
    requires items != [] && AddUpload(g, items[|items| - 1], prepared).Ok?
    requires g.order == Dedupe(Ids(items[..|items| - 1])) && forall key :: key in g.records <==> key in g.order
    ensures var r := AddUpload(g, items[|items| - 1], prepared).value;
      r.order == Dedupe(Ids(items)) && forall key :: key in r.records <==> key in r.order
  {
    var init, item := items[..|items| - 1], items[|items| - 1];
    var key := GroupKey(item);
    IdsSnoc(items);
    DedupeProperties(Ids(init));
    var r := AddUpload(g, item, prepared).value;
    assert r.order == if key in g.records then g.order else g.order + [key];
    assert r.records.Keys == g.records.Keys + {key};
  }

  /** The record of the upload's own id, new or already there. */
  lemma AddUploadKey(g: Groups, items: seq<InItem>, prepared: seq<map<string, JsValue>>)
    requires items != [] && AddUpload(g, items[|items| - 1], prepared).Ok?
    requires var key := GroupKey(items[|items| - 1]);
      var init := items[..|items| - 1];
      (key in g.records <==> key in Ids(init))
      && (key in g.records ==> SeededFirst(g.records[key], init, key))
    ensures var key := GroupKey(items[|items| - 1]);
      SeededFirst(AddUpload(g, items[|items| - 1], prepared).value.records[key], items, key)
  {
    var init, item := items[..|items| - 1], items[|items| - 1];
    var key := GroupKey(item);
    IdsSnoc(items);
    var request := prepared[item.pairedItem];
    var path := LinePath(item, request).value;
    var base := if key in g.records then g.records[key] else Seed(item.json);
    assert AddUpload(g, item, prepared).value.records[key] == SetAudio(base, Prop(request, "tts_line_index"), path);
    var first := if key in g.records then FirstIndex(Ids(init), key) else |init|;
    if key in g.records {
      FirstOfPrefix(Ids(init), key, key);
      assert items[first] == init[first];
    } else {
      assert Ids(items)[|init|] == key;
    }
    assert first == FirstIndex(Ids(items), key);
    assert SeededBy(base, Seed(items[first].json));
    SetAudioKeepsSeed(base, Seed(items[first].json), Prop(request, "tts_line_index"), path);
  }

  lemma AddUploadOther(g: Groups, items: seq<InItem>, prepared: seq<map<string, JsValue>>, k: string)
    requires items != [] && AddUpload(g, items[|items| - 1], prepared).Ok? && k in g.records && k != GroupKey(items[|items| - 1])
    requires SeededFirst(g.records[k], items[..|items| - 1], k)
    ensures SeededFirst(AddUpload(g, items[|items| - 1], prepared).value.records[k], items, k)
  {
    var init, item := items[..|items| - 1], items[|items| - 1];
    var key := GroupKey(item);
    IdsSnoc(items);
    assert AddUpload(g, item, prepared).value.records[k] == g.records[k];
    FirstOfPrefix(Ids(init), key, k);
    assert items[FirstIndex(Ids(init), k)] == init[FirstIndex(Ids(init), k)];
  }

  lemma IdsSnoc(items: seq<InItem>)
    requires items != []
    ensures Ids(items) == Ids(items[..|items| - 1]) + [GroupKey(items[|items| - 1])]
  {
  }

  /** The first index of a key is the same in a longer list that contains it. */
  lemma FirstOfPrefix(ids: seq<string>, x: string, key: string)
    requires key in ids
    ensures key in ids + [x] && FirstIndex(ids + [x], key) == FirstIndex(ids, key)
  {
    var i := FirstIndex(ids, key);
    var j := FirstIndex(ids + [x], key);
    assert (ids + [x])[i] == key;
    assert forall m :: 0 <= m < |ids| ==> (ids + [x])[m] == ids[m];
  }

  /** Empty input gives no output; otherwise the node fails exactly when some
    * upload's request index is out of range or its path is truthy but not a
    * string, and when it succeeds there is one record per distinct id, in
    * first-appearance order, seeded from that id's first upload. */
  lemma AggregateByIdShape(items: seq<InItem>, prepared: seq<map<string, JsValue>>)
    ensures items == [] ==> AggregateById(items, prepared) == Ok([])
    ensures AggregateById(items, prepared).Ok? <==> forall i :: 0 <= i < |items| ==> Handled(items[i], prepared)
    ensures AggregateById(items, prepared).Err? ==> AggregateById(items, prepared).error == TypeError
    ensures AggregateById(items, prepared).Ok? ==>
      var out := AggregateById(items, prepared).value;
      var ids := Dedupe(Ids(items));
      |out| == |ids|
      && forall j :: 0 <= j < |out| ==>
        ids[j] in Ids(items) && SeededBy(out[j], Seed(items[FirstIndex(Ids(items), ids[j])].json))
  {
    GroupedOk(items, prepared);
    if items != [] && Grouped(items, prepared).Ok? {
      GroupedShape(items, prepared);
      DedupeProperties(Ids(items));
    }
  }

  /** Distinct ids give distinct records: `Dedupe` keeps one of each. */
  lemma OnePerId(items: seq<InItem>, prepared: seq<map<string, JsValue>>)
    requires AggregateById(items, prepared).Ok?
    ensures |AggregateById(items, prepared).value| == |Dedupe(Ids(items))|
    ensures NoDuplicates(Dedupe(Ids(items)))
    ensures forall i :: 0 <= i < |items| ==> GroupKey(items[i]) in Dedupe(Ids(items))
  {
    DedupeProperties(Ids(items));
    AggregateByIdShape(items, prepared);
  }

  /** Each upload writes its path into the `audio_url` of the line its
    * request names, when that line is an object of the group's dialogue
    * array, and otherwise leaves the group's record as it was. */
  lemma AddUploadWrites(g: Groups, item: InItem, prepared: seq<map<string, JsValue>>)
    requires AddUpload(g, item, prepared).Ok?
    ensures var key := GroupKey(item);
      var before := if key in g.records then g.records[key] else Seed(item.json);
      var idx := Prop(prepared[item.pairedItem], "tts_line_index");
      var r := AddUpload(g, item, prepared).value;
      key in r.records
      && (forall k :: k in g.records && k != key ==> k in r.records && r.records[k] == g.records[k])
      && (idx.Num? && 0 <= idx.n < |Lines(before)| && Lines(before)[idx.n].Obj? ==>
        idx.n < |Lines(r.records[key])| && Lines(r.records[key])[idx.n].Obj?
        && Prop(Lines(r.records[key])[idx.n].fields, "audio_url") == LinePath(item, prepared[item.pairedItem]).value)
      && (!(idx.Num? && 0 <= idx.n < |Lines(before)| && Lines(before)[idx.n].Obj?) ==> r.records[key] == before)
  {
    var key := GroupKey(item);
    var before := if key in g.records then g.records[key] else Seed(item.json);
    var request := prepared[item.pairedItem];
    SetAudioEffect(before, Prop(request, "tts_line_index"), LinePath(item, request).value);
  }

  // ----------------------------------------------------------------- methods

  /** A failure part way fails the whole pass. */
  lemma GroupedFails(items: seq<InItem>, prepared: seq<map<string, JsValue>>, n: nat)
    requires n <= |items| && Grouped(items[..n], prepared).Err?
    ensures Grouped(items, prepared) == Err(TypeError)
  {
    GroupedOk(items[..n], prepared);
    GroupedOk(items, prepared);
    var i :| 0 <= i < n && !Handled(items[..n][i], prepared);
    assert items[..n][i] == items[i];
  }

  method AggregateTts(items: seq<InItem>, prepared: seq<map<string, JsValue>>) returns (r: Result<seq<map<string, JsValue>>, string>)
    ensures r == AggregateById(items, prepared)
  {
    if |items| == 0 {
      return Ok([]);
    }
    // the first pass
    var i := 0;
    while i < |items|
      invariant 0 <= i <= |items|
      invariant forall j :: 0 <= j < i ==> items[j].pairedItem < |prepared|
    {
      if items[i].pairedItem >= |prepared| {
        return Err(TypeError);
      }
      i := i + 1;
    }
    // the second pass
    var g := Groups([], map[]);
    i := 0;
    while i < |items|
      invariant 0 <= i <= |items|
      invariant Grouped(items[..i], prepared) == Ok(g)
    {
      assert items[..i + 1][..i] == items[..i];
      var next := AddUploadStep(g, items[i], prepared);
      if next.Err? {
        GroupedFails(items, prepared, i + 1);
        return Err(TypeError);
      }
      g := next.value;
      i := i + 1;
    }
    assert items[..|items|] == items;
    var out := ValuesOf(g);
    return Ok(out);
  }

  /** The body of the second pass's `forEach`. */
  method AddUploadStep(g: Groups, item: InItem, prepared: seq<map<string, JsValue>>) returns (r: Result<Groups, string>)
    ensures r == AddUpload(g, item, prepared)
  {
    var data := item.json;
    var expressionId := GroupKey(item);
    var order, records := g.order, g.records;
    if expressionId !in records {
      var cleanData := SeedCopy(data);
      order := order + [expressionId];
      records := records[expressionId := cleanData];
    }
    if item.pairedItem >= |prepared| {
      return Err(TypeError);
    }
    var originalReq := prepared[item.pairedItem];
    var lineIndex := Prop(originalReq, "tts_line_index");
    var path := if Truthy(Prop(data, "Key")) then Prop(data, "Key") else Prop(originalReq, "storage_path");
    if Truthy(path) {
      if !path.Str? {
        return Err(TypeError);
      }
      if StartsWith(path.s, Bucket) {
        path := Str(ReplaceFirst(path.s, Bucket, ""));
      }
    }
    records := records[expressionId := SetAudio(records[expressionId], lineIndex, path)];
    return Ok(Groups(order, records));
  }

  /** `Object.values(finalizedResults)`. */
  method ValuesOf(g: Groups) returns (out: seq<map<string, JsValue>>)
    ensures out == Values(g)
  {
    out := [];
    var j := 0;
    while j < |g.order|
      invariant 0 <= j <= |g.order| && |out| == j
      invariant forall k :: 0 <= k < j ==> out[k] == Values(g)[k]
    {
      var record := if g.order[j] in g.records then g.records[g.order[j]] else map[];
      out := out + [record];
      j := j + 1;
    }
  }
}
