/**
 * The two dialogue-translation backfill nodes
 * (`backfill_dialogue_translations/`): the model's JSON is parsed and its
 * per-turn translations are merged into the stored expression, for French,
 * German, Russian, Chinese and Arabic only.
 *
 * `JSON.parse` is the parameter `parse` (its failure carries the engine's
 * message); the deep copy of a record is the identity on the values
 * modelled.  The first node works on the one input item it is given; the
 * batch node on the originals of its loop node, matched by `id`.  What
 * `$items("Loop Over Items")` returns is the parameter `loopItems`, `None`
 * when the lookup throws.
 */
module DialogueBackfill {
  import opened Common
  import opened Text
  import opened JsValues
  import opened BackfillMerge

  const TargetLangs: seq<string> := ["fr", "de", "ru", "zh", "ar"]
  const NoDialogue := "Original dialogue data not found in input. Ensure data is merged or appended."
  const InvalidFormat := "Invalid generated translation format"
  const NotAnArray := "Generated output is not an array"
  const BatchNodeName := "Loop Over Items"
  const NoOriginals := "Could not find original items. Please ensure your loop node is named '"
    + BatchNodeName + "' or update the script."

  /** The record returned by the `catch` of the single node. */
  function MergeFailed(details: string, rawText: string): map<string, JsValue> {
    map["error" := Str("Merge Failed"), "details" := Str(details), "raw" := Str(rawText)]
  }

  /** The try block of the single node, failing with its error's message. */
  function MergeDialogue(json: map<string, JsValue>, generated: JsValue): Result<map<string, JsValue>, string> {
    if generated.Null? || generated.Undefined? then Err(TypeError)
    else
      var translations := Get(generated, "dialogue_translations");
      if !Truthy(Prop(json, "dialogue")) then Err(NoDialogue)
      else if !translations.Arr? then Err(InvalidFormat)
      else if !json["dialogue"].Arr? then Err(TypeError)
      else
        match MergeTurns(json["dialogue"].items, translations, TargetLangs)
        case Err(e) => Err(e)
        case Ok(turns) => Ok(json["dialogue" := Arr(turns)] - {"text"})
  }

  /** `dialogue_translation_parse_code.js`: the merged record, or the error
    * record for a parse failure or any later failure. */
  function DialogueNode(rawText: string, json: map<string, JsValue>, parse: string -> Result<JsValue, string>): map<string, JsValue> {
    match parse(CleanJson(rawText))
    case Err(message) => MergeFailed(message, rawText)
    case Ok(generated) =>
      match MergeDialogue(json, generated)
      case Err(message) => MergeFailed(message, rawText)
      case Ok(merged) => merged
  }

  /** The merge fails with the input's own messages exactly when the input
    * has no dialogue and when the generated list is not an array; with a
    * dialogue array and a generated array it fails only on a turn that is
    * missing or cannot take a language. */
  lemma MergeDialogueErrors(json: map<string, JsValue>, generated: JsValue)
    ensures !(generated.Null? || generated.Undefined?) && !Truthy(Prop(json, "dialogue")) ==>
      MergeDialogue(json, generated) == Err(NoDialogue)
    ensures !(generated.Null? || generated.Undefined?) && Truthy(Prop(json, "dialogue")) && !Get(generated, "dialogue_translations").Arr? ==>
      MergeDialogue(json, generated) == Err(InvalidFormat)
    ensures "dialogue" in json && json["dialogue"].Arr? && Get(generated, "dialogue_translations").Arr? ==>
      (MergeDialogue(json, generated).Ok? <==>
        forall i :: 0 <= i < |json["dialogue"].items| ==>
          TurnOk(json["dialogue"].items, Get(generated, "dialogue_translations"), TargetLangs, i))
  {
    if "dialogue" in json && json["dialogue"].Arr? && Get(generated, "dialogue_translations").Arr? {
      MergeTurnsEffect(json["dialogue"].items, Get(generated, "dialogue_translations"), TargetLangs);
    }
  }

  /** A merge keeps every field but `dialogue` and drops `text`; the dialogue
    * keeps its length, and each turn keeps every field but `translations`
    * and is merged with the generated entry of its index. */
  lemma MergeDialogueEffect(json: map<string, JsValue>, generated: JsValue)
    requires MergeDialogue(json, generated).Ok?
    ensures var merged := MergeDialogue(json, generated).value;
      var turns := json["dialogue"].items;
      var translations := Get(generated, "dialogue_translations");
      "text" !in merged
      && (forall k :: k != "text" ==> (k in merged <==> k in json))
      && (forall k :: k in json && k != "text" && k != "dialogue" ==> merged[k] == json[k])
      && merged["dialogue"].Arr? && |merged["dialogue"].items| == |turns|
      && forall i :: 0 <= i < |turns| ==>
        TurnOk(turns, translations, TargetLangs, i)
        && merged["dialogue"].items[i] == TurnStep(turns[i], Index(translations, i).value, TargetLangs).value
  {
    MergeTurnsEffect(json["dialogue"].items, Get(generated, "dialogue_translations"), TargetLangs);
  }

  /** `dialogue_translation_parse_code.js` as it runs. */
  method DialogueTranslationNode(rawText: string, json: map<string, JsValue>, parse: string -> Result<JsValue, string>) returns (out: map<string, JsValue>)
    ensures out == DialogueNode(rawText, json, parse)
  {
    var cleanJson := ReplaceAll(ReplaceAll(rawText, "```json", ""), "`", "");
    cleanJson := Trim(cleanJson);
    var parsed := parse(cleanJson);
    if parsed.Err? {
      return MergeFailed(parsed.error, rawText);
    }
    var generatedData := parsed.value;
    if generatedData.Null? || generatedData.Undefined? {
      return MergeFailed(TypeError, rawText);
    }
    var translationsArray := Get(generatedData, "dialogue_translations");
    var originalData := json;
    if !Truthy(Prop(originalData, "dialogue")) {
      return MergeFailed(NoDialogue, rawText);
    }
    var mergedData := originalData;
    if !translationsArray.Arr? {
      return MergeFailed(InvalidFormat, rawText);
    }
    if !mergedData["dialogue"].Arr? {
      return MergeFailed(TypeError, rawText);
    }
    var turns := MergeTurnsLoop(mergedData["dialogue"].items, translationsArray, TargetLangs);
    if turns.Err? {
      return MergeFailed(turns.error, rawText);
    }
    mergedData := mergedData["dialogue" := Arr(turns.value)];
    mergedData := mergedData - {"text"};
    return mergedData;
  }

  // ------------------------------------------------------------ batch node

  /** `new Map(generatedBatch.map(item => [item.id, item.dialogue_translations]))`:
    * ids compared as values, a later entry replacing an earlier one. */
  function ResultMap(batch: seq<JsValue>): Result<map<JsValue, JsValue>, string>
    decreases |batch|
  {
    if batch == [] then Ok(map[])
    else
      match ResultMap(batch[..|batch| - 1])
      case Err(e) => Err(e)
      case Ok(m) =>
        var item := batch[|batch| - 1];
        if item.Null? || item.Undefined? then Err(TypeError)
        else Ok(m[Get(item, "id") := Get(item, "dialogue_translations")])
  }

  /** Entry `i` of the batch is the last one with its id. */
  predicate LastWithId(batch: seq<JsValue>, i: int)
    requires 0 <= i < |batch|
  {
    forall j :: i < j < |batch| ==> Get(batch[j], "id") != Get(batch[i], "id")
  }

  /** The ids of the batch's entries. */
  function BatchIds(batch: seq<JsValue>): (ids: seq<JsValue>)
    ensures |ids| == |batch| && forall i :: 0 <= i < |batch| ==> ids[i] == Get(batch[i], "id")
  {
    seq(|batch|, i requires 0 <= i < |batch| => Get(batch[i], "id"))
  }

  /** The map fails exactly on a missing entry. */
  lemma {:induction false} ResultMapOk(batch: seq<JsValue>)
    ensures ResultMap(batch).Ok? <==> forall i :: 0 <= i < |batch| ==> !(batch[i].Null? || batch[i].Undefined?)
    ensures ResultMap(batch).Err? ==> ResultMap(batch).error == TypeError
    decreases |batch|
  {
    if batch != [] {
      var init := batch[..|batch| - 1];
      ResultMapOk(init);
      assert forall i :: 0 <= i < |init| ==> init[i] == batch[i];
    }
  }

  /** Its keys are the entries' ids. */
  lemma {:induction false} ResultMapKeys(batch: seq<JsValue>)
    requires ResultMap(batch).Ok?
    ensures forall id :: id in ResultMap(batch).value <==> id in BatchIds(batch)
    decreases |batch|
  {
    if batch != [] {
      var init := batch[..|batch| - 1];
      ResultMapKeys(init);
      assert BatchIds(batch) == BatchIds(init) + [Get(batch[|batch| - 1], "id")];
    }
  }

  /** Each id maps to the translations of its last entry. */
  lemma {:induction false} ResultMapLast(batch: seq<JsValue>, i: nat)
    requires ResultMap(batch).Ok? && i < |batch| && LastWithId(batch, i)
    ensures Get(batch[i], "id") in ResultMap(batch).value
    ensures ResultMap(batch).value[Get(batch[i], "id")] == Get(batch[i], "dialogue_translations")
    decreases |batch|
  {
    var init := batch[..|batch| - 1];
    if i < |init| {
      assert init[i] == batch[i];
      assert LastWithId(init, i);
      ResultMapLast(init, i);
    }
  }

  /** One original item in the batch node's `map`. */
  function MergeOriginal(data: map<string, JsValue>, results: map<JsValue, JsValue>): Result<map<string, JsValue>, string> {
    var targetId := Prop(data, "id");
    if targetId in results then
      var dialogue := Prop(data, "dialogue");
      var merged :=
        if Truthy(dialogue) && dialogue.Arr? then
          match MergeTurns(dialogue.items, results[targetId], TargetLangs)
          case Err(e) => Err(e)
          case Ok(turns) => Ok(data["dialogue" := Arr(turns)])
        else Ok(data);
      match merged
      case Err(e) => Err(e)
      case Ok(m) => Ok(m["_backfill_status" := Str("success")] - {"text"})
    else Ok(data["_backfill_status" := Str("missing_in_batch_response")] - {"text"})
  }

  /** `originalItems.map(...)`, failing as a whole at the first failure. */
  function MergeOriginals(originals: seq<map<string, JsValue>>, results: map<JsValue, JsValue>): Result<seq<map<string, JsValue>>, string>
    decreases |originals|
  {
    if originals == [] then Ok([])
    else
      match MergeOriginals(originals[..|originals| - 1], results)
      case Err(e) => Err(e)
      case Ok(done) =>
        match MergeOriginal(originals[|originals| - 1], results)
        case Err(e) => Err(e)
        case Ok(m) => Ok(done + [m])
  }

  /** The `catch` of the batch node: every input item, with the error fields. */
  function BatchFailed(inputs: seq<map<string, JsValue>>, details: string, rawText: string): (out: seq<map<string, JsValue>>)
    ensures |out| == |inputs|
  {
    seq(|inputs|, i requires 0 <= i < |inputs| =>
      inputs[i]["error" := Str("Batch Merge Failed")]["details" := Str(details)]["raw" := Str(rawText)])
  }

  /** The originals to merge: the loop node's items; when that lookup
    * throws, the node's own input, unless it is a single item without a
    * dialogue, which is an error. */
  function OriginalItems(loopItems: Option<seq<map<string, JsValue>>>, inputs: seq<map<string, JsValue>>): (r: Result<seq<map<string, JsValue>>, string>)
    ensures loopItems.Some? ==> r == Ok(loopItems.value)
    ensures loopItems.None? ==>
      (r.Err? <==> |inputs| == 1 && !Truthy(Prop(inputs[0], "dialogue")))
      && (r.Ok? ==> r.value == inputs)
    ensures r.Err? ==> r.error == NoOriginals
  {
    match loopItems
    case Some(items) => Ok(items)
    case None =>
      if |inputs| == 1 && !Truthy(Prop(inputs[0], "dialogue")) then Err(NoOriginals) else Ok(inputs)
  }

  /** `batch_dialogue_translation_parse_code.js`; `inputs` is `$input.all()`
    * and `loopItems` the items of the loop node, if it is found. */
  function BatchNode(rawText: string, inputs: seq<map<string, JsValue>>, loopItems: Option<seq<map<string, JsValue>>>,
                     parse: string -> Result<JsValue, string>): seq<map<string, JsValue>> {
    match parse(CleanJson(rawText))
    case Err(message) => BatchFailed(inputs, message, rawText)
    case Ok(generated) =>
      if !generated.Arr? then BatchFailed(inputs, NotAnArray, rawText)
      else
        match ResultMap(generated.items)
        case Err(e) => BatchFailed(inputs, e, rawText)
        case Ok(results) =>
          match OriginalItems(loopItems, inputs)
          case Err(e) => BatchFailed(inputs, e, rawText)
          case Ok(originals) =>
            match MergeOriginals(originals, results)
            case Err(e) => BatchFailed(inputs, e, rawText)
            case Ok(out) => out
  }

  /** Each original is marked `success` exactly when the batch has its id,
    * and `missing_in_batch_response` otherwise, and loses `text`; a missing
    * one is otherwise unchanged, and a found one changes only its dialogue. */
  lemma MergeOriginalEffect(data: map<string, JsValue>, results: map<JsValue, JsValue>)
    requires MergeOriginal(data, results).Ok?
    ensures var m := MergeOriginal(data, results).value;
      "text" !in m
      && m["_backfill_status"] == Str(if Prop(data, "id") in results then "success" else "missing_in_batch_response")
      && (forall k :: k != "text" && k != "_backfill_status" ==> (k in m <==> k in data))
      && (forall k :: k in data && k != "text" && k != "_backfill_status" && k != "dialogue" ==> m[k] == data[k])
      && (Prop(data, "id") !in results && "dialogue" in data ==> m["dialogue"] == data["dialogue"])
  {
  }

  /** One output per original, in order, when nothing fails. */
  lemma {:induction false} MergeOriginalsIs(originals: seq<map<string, JsValue>>, results: map<JsValue, JsValue>)
    ensures MergeOriginals(originals, results).Ok? <==>
      forall i :: 0 <= i < |originals| ==> MergeOriginal(originals[i], results).Ok?
    ensures MergeOriginals(originals, results).Ok? ==>
      var out := MergeOriginals(originals, results).value;
      |out| == |originals|
      && forall i :: 0 <= i < |originals| ==> MergeOriginal(originals[i], results) == Ok(out[i])
    decreases |originals|
  {
    if originals != [] {
      var init := originals[..|originals| - 1];
      MergeOriginalsIs(init, results);
      assert forall i :: 0 <= i < |init| ==> init[i] == originals[i];
      if MergeOriginals(originals, results).Ok? {
        var done := MergeOriginals(init, results).value;
        var out := MergeOriginals(originals, results).value;
        assert forall i :: 0 <= i < |init| ==> out[i] == done[i];
      }
    }
  }

  /** A parse failure, a generated value that is not an array, or a missing
    * loop node whose stand-in is a single item without a dialogue turns
    * every input item into an error record with the failure's message. */
  lemma BatchFailures(rawText: string, inputs: seq<map<string, JsValue>>, loopItems: Option<seq<map<string, JsValue>>>,
                      parse: string -> Result<JsValue, string>)
    ensures parse(CleanJson(rawText)).Err? ==>
      BatchNode(rawText, inputs, loopItems, parse) == BatchFailed(inputs, parse(CleanJson(rawText)).error, rawText)
    ensures parse(CleanJson(rawText)).Ok? && !parse(CleanJson(rawText)).value.Arr? ==>
      BatchNode(rawText, inputs, loopItems, parse) == BatchFailed(inputs, NotAnArray, rawText)
    ensures (parse(CleanJson(rawText)).Ok? && parse(CleanJson(rawText)).value.Arr?
        && ResultMap(parse(CleanJson(rawText)).value.items).Ok?
        && loopItems.None? && |inputs| == 1 && !Truthy(Prop(inputs[0], "dialogue"))) ==>
      BatchNode(rawText, inputs, loopItems, parse) == BatchFailed(inputs, NoOriginals, rawText)
    ensures forall i :: 0 <= i < |inputs| ==>
      var failed := BatchFailed(inputs, NotAnArray, rawText)[i];
      failed["error"] == Str("Batch Merge Failed") && failed["details"] == Str(NotAnArray)
      && forall k :: k in inputs[i] && k != "error" && k != "details" && k != "raw" ==> failed[k] == inputs[i][k]
  {
  }

  /** When the batch merges, there is one output per original, in order:
    * per item of the loop node, or of the input when the loop node is not
    * found. */
  lemma BatchNodeShape(rawText: string, inputs: seq<map<string, JsValue>>, loopItems: Option<seq<map<string, JsValue>>>,
                       parse: string -> Result<JsValue, string>)
    requires parse(CleanJson(rawText)).Ok? && parse(CleanJson(rawText)).value.Arr?
    requires ResultMap(parse(CleanJson(rawText)).value.items).Ok?
    requires OriginalItems(loopItems, inputs).Ok?
    requires MergeOriginals(OriginalItems(loopItems, inputs).value, ResultMap(parse(CleanJson(rawText)).value.items).value).Ok?
    ensures var results := ResultMap(parse(CleanJson(rawText)).value.items).value;
      var originals := if loopItems.Some? then loopItems.value else inputs;
      var out := BatchNode(rawText, inputs, loopItems, parse);
      |out| == |originals|
      && forall i :: 0 <= i < |originals| ==> MergeOriginal(originals[i], results) == Ok(out[i])
  {
    MergeOriginalsIs(OriginalItems(loopItems, inputs).value, ResultMap(parse(CleanJson(rawText)).value.items).value);
  }

  /** `batch_dialogue_translation_parse_code.js` as it runs. */
  method BatchTranslationNode(rawText: string, inputs: seq<map<string, JsValue>>, loopItems: Option<seq<map<string, JsValue>>>,
                              parse: string -> Result<JsValue, string>) returns (out: seq<map<string, JsValue>>)
    ensures out == BatchNode(rawText, inputs, loopItems, parse)
  {
    var cleanJson := Trim(ReplaceAll(ReplaceAll(rawText, "```json", ""), "`", ""));
    var parsed := parse(cleanJson);
    if parsed.Err? {
      return BatchFailed(inputs, parsed.error, rawText);
    }
    var generatedBatch := parsed.value;
    if !generatedBatch.Arr? {
      return BatchFailed(inputs, NotAnArray, rawText);
    }
    var resultMap := BuildResultMap(generatedBatch.items);
    if resultMap.Err? {
      return BatchFailed(inputs, resultMap.error, rawText);
    }
    var originals := inputs;
    if loopItems.Some? {
      originals := loopItems.value;
    } else if |originals| == 1 && !Truthy(Prop(originals[0], "dialogue")) {
      return BatchFailed(inputs, NoOriginals, rawText);
    }
    var merged := MergeOriginalsLoop(originals, resultMap.value);
    if merged.Err? {
      return BatchFailed(inputs, merged.error, rawText);
    }
    return merged.value;
  }

  method BuildResultMap(batch: seq<JsValue>) returns (r: Result<map<JsValue, JsValue>, string>)
    ensures r == ResultMap(batch)
  {
    var m: map<JsValue, JsValue> := map[];
    var i := 0;
    while i < |batch|
      invariant 0 <= i <= |batch|
      invariant ResultMap(batch[..i]) == Ok(m)
    {
      assert batch[..i + 1][..i] == batch[..i];
      var item := batch[i];
      if item.Null? || item.Undefined? {
        ResultMapOk(batch[..i + 1]);
        ResultMapOk(batch);
        assert batch[..i + 1][i] == batch[i];
        return Err(TypeError);
      }
      m := m[Get(item, "id") := Get(item, "dialogue_translations")];
      i := i + 1;
    }
    assert batch[..|batch|] == batch;
    return Ok(m);
  }

  method MergeOriginalsLoop(originals: seq<map<string, JsValue>>, results: map<JsValue, JsValue>) returns (r: Result<seq<map<string, JsValue>>, string>)
    ensures r == MergeOriginals(originals, results)
  {
    var done: seq<map<string, JsValue>> := [];
    var i := 0;
    while i < |originals|
      invariant 0 <= i <= |originals|
      invariant MergeOriginals(originals[..i], results) == Ok(done)
    {
      assert originals[..i + 1][..i] == originals[..i];
      var originalData := originals[i];
      var targetId := Prop(originalData, "id");
      var mergedData := originalData;
      if targetId in results {
        var dialogue := Prop(mergedData, "dialogue");
        if Truthy(dialogue) && dialogue.Arr? {
          var turns := MergeTurnsLoop(dialogue.items, results[targetId], TargetLangs);
          if turns.Err? {
            MergeOriginalsFail(originals, results, i);
            return Err(turns.error);
          }
          mergedData := mergedData["dialogue" := Arr(turns.value)];
        }
        mergedData := mergedData["_backfill_status" := Str("success")];
      } else {
        mergedData := mergedData["_backfill_status" := Str("missing_in_batch_response")];
      }
      mergedData := mergedData - {"text"};
      done := done + [mergedData];
      i := i + 1;
    }
    assert originals[..|originals|] == originals;
    return Ok(done);
  }

  /** The first failing original is the failure of the whole `map`. */
  lemma {:induction false} MergeOriginalsFail(originals: seq<map<string, JsValue>>, results: map<JsValue, JsValue>, n: nat)
    requires n < |originals| && MergeOriginals(originals[..n], results).Ok? && MergeOriginal(originals[n], results).Err?
    ensures MergeOriginals(originals, results) == Err(MergeOriginal(originals[n], results).error)
    decreases |originals|
  {
    if n + 1 < |originals| {
      var init := originals[..|originals| - 1];
      assert init[..n] == originals[..n] && init[n] == originals[n];
      MergeOriginalsFail(init, results, n);
    } else {
      assert originals[..n] == originals[..|originals| - 1];
    }
  }
}
