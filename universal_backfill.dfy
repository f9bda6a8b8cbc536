/**
 * The two meaning-and-content backfill nodes (`backfill_universal/`): the
 * model's JSON is parsed and merged into the first item of the batch node.
 * The universal node rewrites English and five new languages, the English
 * text of each dialogue turn included; the supplementary node only adds the
 * five new languages.  Korean, Japanese and Spanish are never written.
 *
 * `JSON.parse` is the parameter `parse`; `hasPaired` is whether the input
 * item has a `pairedItem`, and `split` the items of the batch node.
 */
module UniversalBackfill {
  import opened Common
  import opened Text
  import opened JsValues
  import opened BackfillMerge

  const UniversalLangs: seq<string> := ["en", "de", "fr", "ru", "zh", "ar"]
  const SupplementaryLangs: seq<string> := ["de", "fr", "ru", "zh", "ar"]
  const NoOriginal := "Could not find original data to merge"

  /** The record the `catch` returns. */
  function ParseFailed(rawText: string, details: string): map<string, JsValue> {
    map["error" := Str("JSON Parsing/Merge Failed"), "raw" := Str(rawText), "details" := Str(details)]
  }

  /** `splitItems[0].json` when the input is paired and the batch is not empty. */
  function Original(hasPaired: bool, split: seq<map<string, JsValue>>): Option<map<string, JsValue>> {
    if hasPaired && |split| > 0 then Some(split[0]) else None
  }

  /** `if (!merged[section]) merged[section] = {};` and the per-language copy
    * of `generated[section][lang]`; reading a section of `null` fails. */
  function MergeSection(merged: map<string, JsValue>, generated: JsValue, section: string, langs: seq<string>): Result<map<string, JsValue>, string>
    requires langs != []
  {
    if generated.Null? || generated.Undefined? then Err(TypeError)
    else
      var current := Prop(merged, section);
      var target := if Truthy(current) then current else Obj(map[]);
      if target.Obj? then Ok(merged[section := Obj(MergeLangs(target.fields, Get(generated, section), langs))])
      else Ok(merged)
  }

  /** A section merge changes no other field, and in an object section (new
    * when there was none) overwrites exactly the listed languages that the
    * generated section has a truthy value for; other languages keep theirs. */
  lemma MergeSectionEffect(merged: map<string, JsValue>, generated: JsValue, section: string, langs: seq<string>)
    requires langs != []
    ensures MergeSection(merged, generated, section, langs).Err? <==> generated.Null? || generated.Undefined?
    ensures MergeSection(merged, generated, section, langs).Ok? ==>
      var r := MergeSection(merged, generated, section, langs).value;
      var before := Prop(merged, section);
      var source := Get(generated, section);
      (forall k :: k != section ==> Prop(r, k) == Prop(merged, k))
      && (Truthy(before) && !before.Obj? ==> r == merged)
      && (before.Obj? || !Truthy(before) ==>
        Prop(r, section).Obj?
        && (forall k :: Overwrites(source, langs, k) ==> Get(Prop(r, section), k) == Get(source, k))
        && (forall k :: !Overwrites(source, langs, k) ==> Get(Prop(r, section), k) == Get(before, k)))
  {
    if !(generated.Null? || generated.Undefined?) {
      var current := Prop(merged, section);
      var target := if Truthy(current) then current else Obj(map[]);
      if target.Obj? {
        MergeLangsEffect(target.fields, Get(generated, section), langs);
      }
    }
  }

  /** `target.key = value`: a write to `null` or `undefined` fails, one to
    * another primitive is ignored. */
  function SetField(target: JsValue, key: string, value: JsValue): Result<JsValue, string> {
    if target.Null? || target.Undefined? then Err(TypeError)
    else if target.Obj? then Ok(Obj(target.fields[key := value]))
    else Ok(target)
  }

  /** The languages of a turn's translations in the universal node: all but
    * English, which the turn holds on its own. */
  function TurnLangs(): (langs: seq<string>)
    ensures "en" !in langs && forall l :: l in langs <==> l in UniversalLangs && l != "en"
  {
    assert UniversalLangs == ["en"] + SupplementaryLangs;
    SupplementaryLangs
  }

  /** One turn of the universal dialogue merge: the turn after the merge and
    * whether it is missing its translations. */
  function UniversalTurn(turn: JsValue, newTurn: JsValue): Result<(JsValue, bool), string> {
    if !Truthy(newTurn) then Ok((turn, false))
    else
      var withEn := if Truthy(Get(newTurn, "en")) then SetField(turn, "en", Get(newTurn, "en")) else Ok(turn);
      match withEn
      case Err(e) => Err(e)
      case Ok(t) =>
        if Truthy(Get(newTurn, "translations")) then
          match SetTranslations(t, Get(newTurn, "translations"), TurnLangs())
          case Err(e) => Err(e)
          case Ok(t2) => Ok((t2, false))
        else Ok((t, true))
  }

  /** The turns after the loop and the indices of the turns whose generated
    * turn has no translations, in order. */
  datatype TurnsMerged = TurnsMerged(turns: seq<JsValue>, missing: seq<nat>)

  function UniversalTurns(turns: seq<JsValue>, generated: seq<JsValue>): Result<TurnsMerged, string>
    decreases |turns|
  {
    if turns == [] then Ok(TurnsMerged([], []))
    else
      var last := |turns| - 1;
      match UniversalTurns(turns[..last], generated)
      case Err(e) => Err(e)
      case Ok(done) =>
        match UniversalTurn(turns[last], if last < |generated| then generated[last] else Undefined)
        case Err(e) => Err(e)
        case Ok(step) =>
          Ok(TurnsMerged(done.turns + [step.0], done.missing + (if step.1 then [last] else [])))
  }

  /** The generated turn for an index: `generatedData.dialogue[index]`. */
  function GeneratedTurn(generated: seq<JsValue>, i: nat): JsValue {
    if i < |generated| then generated[i] else Undefined
  }

  /** A turn's `en` is replaced only by a truthy generated `en`, and a
    * generated turn without translations marks the turn as missing them. */
  lemma UniversalTurnEffect(turn: JsValue, newTurn: JsValue)
    requires UniversalTurn(turn, newTurn).Ok? && turn.Obj?
    ensures var r := UniversalTurn(turn, newTurn).value;
      r.0.Obj?
      && Get(r.0, "en") == (if Truthy(newTurn) && Truthy(Get(newTurn, "en")) then Get(newTurn, "en") else Get(turn, "en"))
      && (forall k :: k != "en" && k != "translations" ==> Get(r.0, k) == Get(turn, k))
      && (r.1 <==> Truthy(newTurn) && !Truthy(Get(newTurn, "translations")))
  {
    if Truthy(newTurn) {
      var t := if Truthy(Get(newTurn, "en")) then SetField(turn, "en", Get(newTurn, "en")).value else turn;
      if Truthy(Get(newTurn, "translations")) {
        SetTranslationsEffect(t, Get(newTurn, "translations"), TurnLangs());
      }
    }
  }

  /** The loop over the turns fails exactly when some turn fails. */
  lemma {:induction false} UniversalTurnsOk(turns: seq<JsValue>, generated: seq<JsValue>)
    ensures UniversalTurns(turns, generated).Ok? <==>
      forall i :: 0 <= i < |turns| ==> UniversalTurn(turns[i], GeneratedTurn(generated, i)).Ok?
    ensures UniversalTurns(turns, generated).Err? ==> UniversalTurns(turns, generated).error == TypeError
    decreases |turns|
  {
    if turns != [] {
      var last := |turns| - 1;
      var init := turns[..last];
      UniversalTurnsOk(init, generated);
      assert forall i :: 0 <= i < |init| ==> init[i] == turns[i];
      UniversalTurnErrors(turns[last], GeneratedTurn(generated, last));
      if UniversalTurns(init, generated).Err? {
        var i :| 0 <= i < |init| && !UniversalTurn(init[i], GeneratedTurn(generated, i)).Ok?;
        assert turns[i] == init[i];
      }
    }
  }

  /** The loop keeps the number of turns, and lists only turns that exist,
    * in increasing order. */
  lemma {:induction false} UniversalTurnsShape(turns: seq<JsValue>, generated: seq<JsValue>)
    requires UniversalTurns(turns, generated).Ok?
    ensures var r := UniversalTurns(turns, generated).value;
      |r.turns| == |turns|
      && (forall j, k :: 0 <= j < k < |r.missing| ==> r.missing[j] < r.missing[k])
      && (forall j :: 0 <= j < |r.missing| ==> r.missing[j] < |turns|)
    decreases |turns|
  {
    if turns != [] {
      UniversalTurnsShape(turns[..|turns| - 1], generated);
    }
  }

  /** Turn `i` is merged with generated turn `i`, and listed exactly when it
    * is missing translations. */
  lemma {:induction false} UniversalTurnsAt(turns: seq<JsValue>, generated: seq<JsValue>, i: nat)
    requires UniversalTurns(turns, generated).Ok? && i < |turns|
    ensures var r := UniversalTurns(turns, generated).value;
      var step := UniversalTurn(turns[i], GeneratedTurn(generated, i));
      step.Ok? && i < |r.turns| && r.turns[i] == step.value.0 && (i in r.missing <==> step.value.1)
    decreases |turns|
  {
    var last := |turns| - 1;
    var init := turns[..last];
    UniversalTurnsShape(init, generated);
    UniversalTurnsShape(turns, generated);
    if i < last {
      UniversalTurnsAt(init, generated, i);
      assert init[i] == turns[i];
    }
  }

  lemma UniversalTurnErrors(turn: JsValue, newTurn: JsValue)
    ensures UniversalTurn(turn, newTurn).Err? ==> UniversalTurn(turn, newTurn).error == TypeError
  {
    if Truthy(newTurn) {
      var withEn := if Truthy(Get(newTurn, "en")) then SetField(turn, "en", Get(newTurn, "en")) else Ok(turn);
      if withEn.Ok? && Truthy(Get(newTurn, "translations")) {
        SetTranslationsEffect(withEn.value, Get(newTurn, "translations"), TurnLangs());
      }
    }
  }

  /** `mergedData._warnings.push(...)` for each missing turn, creating the
    * list when there is none; pushing to a value that is not an array fails. */
  function AddWarnings(merged: map<string, JsValue>, missing: seq<nat>): Result<map<string, JsValue>, string> {
    if missing == [] then Ok(merged)
    else
      var current := Prop(merged, "_warnings");
      var warnings := if Truthy(current) then current else Arr([]);
      if !warnings.Arr? then Err(TypeError)
      else Ok(merged["_warnings" := Arr(warnings.items + WarningTexts(missing))])
  }

  function WarningTexts(missing: seq<nat>): (texts: seq<JsValue>)
    ensures |texts| == |missing|
    ensures forall j :: 0 <= j < |missing| ==> texts[j] == Str("Missing translations in dialogue turn " + NatToString(missing[j]))
  {
    seq(|missing|, j requires 0 <= j < |missing| => Str("Missing translations in dialogue turn " + NatToString(missing[j])))
  }

  /** The merges of `meaning` and then `content`. */
  function Sections(original: map<string, JsValue>, generated: JsValue, langs: seq<string>): Result<map<string, JsValue>, string>
    requires langs != []
  {
    match MergeSection(original, generated, "meaning", langs)
    case Err(e) => Err(e)
    case Ok(m1) => MergeSection(m1, generated, "content", langs)
  }

  /** The two section merges fail only on a `null` generated value, change
    * no field but the two sections, and in each object section keep every
    * key the generated section does not overwrite. */
  lemma SectionsEffect(original: map<string, JsValue>, generated: JsValue, langs: seq<string>)
    requires langs != []
    ensures Sections(original, generated, langs).Err? <==> generated.Null? || generated.Undefined?
    ensures Sections(original, generated, langs).Err? ==> Sections(original, generated, langs).error == TypeError
    ensures Sections(original, generated, langs).Ok? ==>
      var r := Sections(original, generated, langs).value;
      (forall k :: k != "meaning" && k != "content" ==> Prop(r, k) == Prop(original, k))
      && forall section, lang | section == "meaning" || section == "content" ::
        !Overwrites(Get(generated, section), langs, lang) && Get(Prop(original, section), lang) != Undefined ==>
          Get(Prop(r, section), lang) == Get(Prop(original, section), lang)
  {
    MergeSectionEffect(original, generated, "meaning", langs);
    if !(generated.Null? || generated.Undefined?) {
      var m1 := MergeSection(original, generated, "meaning", langs).value;
      MergeSectionEffect(m1, generated, "content", langs);
    }
  }

  /** The try block of `universal_backfill_parse_code.js`. */
  function MergeUniversal(original: map<string, JsValue>, generated: JsValue): Result<map<string, JsValue>, string> {
    match Sections(original, generated, UniversalLangs)
    case Err(e) => Err(e)
    case Ok(m2) =>
        var dialogue := Prop(m2, "dialogue");
        var newDialogue := Get(generated, "dialogue");
        if Truthy(dialogue) && dialogue.Arr? && Truthy(newDialogue) && newDialogue.Arr? then
          UniversalDialogueMerge(m2, dialogue.items, newDialogue.items)
        else Ok(m2)
  }

  /** `universal_backfill_parse_code.js`. */
  function UniversalNode(rawText: string, hasPaired: bool, split: seq<map<string, JsValue>>,
                         parse: string -> Result<JsValue, string>): map<string, JsValue> {
    match parse(CleanJson(rawText))
    case Err(message) => ParseFailed(rawText, message)
    case Ok(generated) =>
      match Original(hasPaired, split)
      case None => ParseFailed(rawText, NoOriginal)
      case Some(original) =>
        match MergeUniversal(original, generated)
        case Err(message) => ParseFailed(rawText, message)
        case Ok(merged) => merged
  }

  /** Without an original the node returns the error record; with one, the
    * merge touches only `meaning`, `content`, `dialogue` and `_warnings`. */
  lemma UniversalNodeEffect(rawText: string, hasPaired: bool, split: seq<map<string, JsValue>>,
                            parse: string -> Result<JsValue, string>)
    ensures parse(CleanJson(rawText)).Ok? && !(hasPaired && |split| > 0) ==>
      UniversalNode(rawText, hasPaired, split, parse) == ParseFailed(rawText, NoOriginal)
    ensures parse(CleanJson(rawText)).Err? ==>
      UniversalNode(rawText, hasPaired, split, parse) == ParseFailed(rawText, parse(CleanJson(rawText)).error)
    ensures parse(CleanJson(rawText)).Ok? && hasPaired && |split| > 0 && MergeUniversal(split[0], parse(CleanJson(rawText)).value).Ok? ==>
      var out := UniversalNode(rawText, hasPaired, split, parse);
      forall k :: k != "meaning" && k != "content" && k != "dialogue" && k != "_warnings" ==> Prop(out, k) == Prop(split[0], k)
  {
    if parse(CleanJson(rawText)).Ok? && hasPaired && |split| > 0 && MergeUniversal(split[0], parse(CleanJson(rawText)).value).Ok? {
      MergeUniversalKeeps(split[0], parse(CleanJson(rawText)).value);
    }
  }

  lemma MergeUniversalKeeps(original: map<string, JsValue>, generated: JsValue)
    requires MergeUniversal(original, generated).Ok?
    ensures forall k :: k != "meaning" && k != "content" && k != "dialogue" && k != "_warnings" ==>
      Prop(MergeUniversal(original, generated).value, k) == Prop(original, k)
  {
    SectionsEffect(original, generated, UniversalLangs);
  }

  /** Meaning and content lose no language outside English and the five new
    * ones: Korean, Japanese and Spanish keep their values. */
  lemma UniversalKeepsOtherLangs(original: map<string, JsValue>, generated: JsValue, section: string, lang: string)
    requires MergeUniversal(original, generated).Ok? && (section == "meaning" || section == "content")
    requires lang !in UniversalLangs && Get(Prop(original, section), lang) != Undefined
    ensures Get(Prop(MergeUniversal(original, generated).value, section), lang) == Get(Prop(original, section), lang)
  {
    SectionsEffect(original, generated, UniversalLangs);
  }

  /** When both dialogues are arrays, the merged record has one turn per
    * original turn, each merged with the generated turn of its index, and a
    * warning for each turn whose generated turn lacks translations. */
  lemma UniversalDialogue(original: map<string, JsValue>, generated: JsValue)
    requires MergeUniversal(original, generated).Ok?
    requires "dialogue" in original && original["dialogue"].Arr? && Get(generated, "dialogue").Arr?
    ensures var out := MergeUniversal(original, generated).value;
      var turns := original["dialogue"].items;
      var r := UniversalTurns(turns, Get(generated, "dialogue").items).value;
      UniversalTurns(turns, Get(generated, "dialogue").items).Ok?
      && Prop(out, "dialogue") == Arr(r.turns) && |r.turns| == |turns|
      && var before := Prop(original, "_warnings");
      (r.missing == [] ==> Prop(out, "_warnings") == before)
      && (r.missing != [] ==>
        Prop(out, "_warnings") == Arr((if Truthy(before) && before.Arr? then before.items else []) + WarningTexts(r.missing)))
  {
    SectionsEffect(original, generated, UniversalLangs);
    UniversalTurnsOk(original["dialogue"].items, Get(generated, "dialogue").items);
    UniversalTurnsShape(original["dialogue"].items, Get(generated, "dialogue").items);
  }

  // ------------------------------------------------------ supplementary node

  /** The try block of `supplementary_backfill_parse_code.js`. */
  function MergeSupplementary(original: map<string, JsValue>, generated: JsValue): Result<map<string, JsValue>, string> {
    match Sections(original, generated, SupplementaryLangs)
    case Err(e) => Err(e)
    case Ok(m2) =>
        var dialogue := Prop(m2, "dialogue");
        var newTurns := Get(generated, "dialogue_translations");
        if Truthy(dialogue) && dialogue.Arr? && Truthy(newTurns) && newTurns.Arr? then
          match MergeTurns(dialogue.items, newTurns, SupplementaryLangs)
          case Err(e) => Err(e)
          case Ok(turns) => Ok(m2["dialogue" := Arr(turns)])
        else Ok(m2)
  }

  function SupplementaryNode(rawText: string, hasPaired: bool, split: seq<map<string, JsValue>>,
                             parse: string -> Result<JsValue, string>): map<string, JsValue> {
    match parse(CleanJson(rawText))
    case Err(message) => ParseFailed(rawText, message)
    case Ok(generated) =>
      match Original(hasPaired, split)
      case None => ParseFailed(rawText, NoOriginal)
      case Some(original) =>
        match MergeSupplementary(original, generated)
        case Err(message) => ParseFailed(rawText, message)
        case Ok(merged) => merged
  }

  /** The supplementary merge writes no English, Korean, Japanese or Spanish
    * entry of `meaning` or `content`, changes no field but those two and the
    * dialogue, and leaves each turn's `en` and `role` as they were. */
  lemma SupplementaryKeeps(original: map<string, JsValue>, generated: JsValue)
    requires MergeSupplementary(original, generated).Ok?
    ensures var out := MergeSupplementary(original, generated).value;
      (forall k :: k != "meaning" && k != "content" && k != "dialogue" ==> Prop(out, k) == Prop(original, k))
      && forall section, lang | section == "meaning" || section == "content" ::
        lang !in SupplementaryLangs && Get(Prop(original, section), lang) != Undefined ==>
          Get(Prop(out, section), lang) == Get(Prop(original, section), lang)
  {
    SectionsEffect(original, generated, SupplementaryLangs);
  }

  lemma SupplementaryDialogue(original: map<string, JsValue>, generated: JsValue, i: nat, key: string)
    requires MergeSupplementary(original, generated).Ok?
    requires "dialogue" in original && original["dialogue"].Arr? && Get(generated, "dialogue_translations").Arr?
    requires i < |original["dialogue"].items| && key != "translations"
    ensures var out := MergeSupplementary(original, generated).value;
      Prop(out, "dialogue").Arr? && |Prop(out, "dialogue").items| == |original["dialogue"].items|
      && Get(Prop(out, "dialogue").items[i], key) == Get(original["dialogue"].items[i], key)
  {
    SectionsEffect(original, generated, SupplementaryLangs);
    var turns := original["dialogue"].items;
    var translations := Get(generated, "dialogue_translations");
    MergeTurnsEffect(turns, translations, SupplementaryLangs);
    TurnKeepsText(turns[i], Index(translations, i).value, SupplementaryLangs, key);
  }

  // ----------------------------------------------------------------- methods

  /** The `meaning` or `content` block of either node. */
  method MergeSectionInto(merged: map<string, JsValue>, generated: JsValue, section: string, langs: seq<string>)
    returns (r: Result<map<string, JsValue>, string>)
    requires langs != []
    ensures r == MergeSection(merged, generated, section, langs)
  {
    var target := Prop(merged, section);
    if !Truthy(target) {
      target := Obj(map[]);
    }
    if generated.Null? || generated.Undefined? {
      return Err(TypeError);
    }
    if !target.Obj? {
      return Ok(merged);
    }
    var fields := MergeLangsInto(target.fields, Get(generated, section), langs);
    return Ok(merged[section := Obj(fields)]);
  }

  /** The warning pushed for turn `index`. */
  function WarningText(index: nat): JsValue {
    Str("Missing translations in dialogue turn " + NatToString(index))
  }

  /** `if (!m._warnings) m._warnings = []; m._warnings.push(...)`. */
  function Push(merged: map<string, JsValue>, index: nat): Result<map<string, JsValue>, string> {
    var current := Prop(merged, "_warnings");
    var warnings := if Truthy(current) then current else Arr([]);
    if warnings.Arr? then Ok(merged["_warnings" := Arr(warnings.items + [WarningText(index)])])
    else Err(TypeError)
  }

  /** One more push continues the pushes so far. */
  lemma AddWarningsPush(merged: map<string, JsValue>, missing: seq<nat>, index: nat)
    requires AddWarnings(merged, missing).Ok?
    ensures AddWarnings(merged, missing + [index]) == Push(AddWarnings(merged, missing).value, index)
  {
    assert WarningTexts(missing + [index]) == WarningTexts(missing) + [WarningText(index)];
    if missing != [] {
      var current := Prop(merged, "_warnings");
      var base := if Truthy(current) then current else Arr([]);
      assert base.items + WarningTexts(missing + [index]) == (base.items + WarningTexts(missing)) + [WarningText(index)];
      var v := AddWarnings(merged, missing).value;
      var w := Arr(base.items + WarningTexts(missing + [index]));
      assert merged["_warnings" := w] == v["_warnings" := w];
    } else {
      assert missing + [index] == [index];
      assert WarningTexts([index]) == [WarningText(index)];
    }
  }

  /** The pushes touch only `_warnings`. */
  lemma AddWarningsDialogue(merged: map<string, JsValue>, missing: seq<nat>, dialogue: JsValue)
    requires AddWarnings(merged, missing).Ok?
    ensures AddWarnings(merged["dialogue" := dialogue], missing) == Ok(AddWarnings(merged, missing).value["dialogue" := dialogue])
  {
    if missing != [] {
      assert Prop(merged["dialogue" := dialogue], "_warnings") == Prop(merged, "_warnings");
      var v := AddWarnings(merged, missing).value;
      assert merged["dialogue" := dialogue]["_warnings" := v["_warnings"]] == v["dialogue" := dialogue];
    }
  }

  /** A push that fails fails the whole merge. */
  lemma WarningFails(merged: map<string, JsValue>, turns: seq<JsValue>, generated: seq<JsValue>, i: nat)
    requires i < |turns| && UniversalTurn(turns[i], GeneratedTurn(generated, i)).Ok?
    requires UniversalTurn(turns[i], GeneratedTurn(generated, i)).value.1
    requires var current := Prop(merged, "_warnings"); Truthy(current) && !current.Arr?
    ensures UniversalDialogueMerge(merged, turns, generated) == Err(TypeError)
  {
    UniversalTurnsOk(turns, generated);
    if UniversalTurns(turns, generated).Ok? {
      UniversalTurnsAt(turns, generated, i);
      var r := UniversalTurns(turns, generated).value;
      assert Prop(merged["dialogue" := Arr(r.turns)], "_warnings") == Prop(merged, "_warnings");
    }
  }

  /** The dialogue block of the universal node once both dialogues are arrays. */
  function UniversalDialogueMerge(merged: map<string, JsValue>, turns: seq<JsValue>, generated: seq<JsValue>): Result<map<string, JsValue>, string> {
    match UniversalTurns(turns, generated)
    case Err(e) => Err(e)
    case Ok(r) => AddWarnings(merged["dialogue" := Arr(r.turns)], r.missing)
  }

  /** `mergedData.dialogue.forEach(...)` of the universal node. */
  method UniversalTurnsLoop(merged: map<string, JsValue>, turns: seq<JsValue>, generated: seq<JsValue>)
    returns (r: Result<map<string, JsValue>, string>)
    ensures r == UniversalDialogueMerge(merged, turns, generated)
  {
    var done: seq<JsValue> := [];
    ghost var missing: seq<nat> := [];
    var mergedData := merged;
    var index := 0;
    while index < |turns|
      invariant 0 <= index <= |turns|
      invariant UniversalTurns(turns[..index], generated) == Ok(TurnsMerged(done, missing))
      invariant AddWarnings(merged, missing) == Ok(mergedData)
    {
      assert turns[..index + 1][..index] == turns[..index];
      var newTurn := if index < |generated| then generated[index] else Undefined;
      var step := UniversalTurn(turns[index], newTurn);
      if step.Err? {
        UniversalTurnsOk(turns, generated);
        return Err(TypeError);
      }
      assert UniversalTurns(turns[..index + 1], generated)
        == Ok(TurnsMerged(done + [step.value.0], missing + (if step.value.1 then [index] else [])));
      if step.value.1 {
        AddWarningsPush(merged, missing, index);
        var pushed := Push(mergedData, index);
        if pushed.Err? {
          WarningFails(merged, turns, generated, index);
          return Err(TypeError);
        }
        mergedData := pushed.value;
        missing := missing + [index];
      } else {
        assert missing + [] == missing;
      }
      done := done + [step.value.0];
      index := index + 1;
    }
    assert turns[..|turns|] == turns;
    AddWarningsDialogue(merged, missing, Arr(done));
    return Ok(mergedData["dialogue" := Arr(done)]);
  }

  /** `universal_backfill_parse_code.js` as it runs. */
  method UniversalBackfillNode(rawText: string, hasPaired: bool, split: seq<map<string, JsValue>>,
                               parse: string -> Result<JsValue, string>) returns (out: map<string, JsValue>)
    ensures out == UniversalNode(rawText, hasPaired, split, parse)
  {
    var cleanJson := Trim(ReplaceAll(ReplaceAll(rawText, "```json", ""), "`", ""));
    var parsed := parse(cleanJson);
    if parsed.Err? {
      return ParseFailed(rawText, parsed.error);
    }
    var generatedData := parsed.value;
    if !(hasPaired && |split| > 0) {
      return ParseFailed(rawText, NoOriginal);
    }
    var mergedData := split[0];
    var meaning := MergeSectionInto(mergedData, generatedData, "meaning", UniversalLangs);
    if meaning.Err? {
      return ParseFailed(rawText, meaning.error);
    }
    var content := MergeSectionInto(meaning.value, generatedData, "content", UniversalLangs);
    if content.Err? {
      return ParseFailed(rawText, content.error);
    }
    mergedData := content.value;
    var dialogue := Prop(mergedData, "dialogue");
    var newDialogue := Get(generatedData, "dialogue");
    if Truthy(dialogue) && dialogue.Arr? && Truthy(newDialogue) && newDialogue.Arr? {
      var merged := UniversalTurnsLoop(mergedData, dialogue.items, newDialogue.items);
      if merged.Err? {
        return ParseFailed(rawText, merged.error);
      }
      mergedData := merged.value;
    }
    return mergedData;
  }

  /** `supplementary_backfill_parse_code.js` as it runs. */
  method SupplementaryBackfillNode(rawText: string, hasPaired: bool, split: seq<map<string, JsValue>>,
                                   parse: string -> Result<JsValue, string>) returns (out: map<string, JsValue>)
    ensures out == SupplementaryNode(rawText, hasPaired, split, parse)
  {
    var cleanJson := Trim(ReplaceAll(ReplaceAll(rawText, "```json", ""), "`", ""));
    var parsed := parse(cleanJson);
    if parsed.Err? {
      return ParseFailed(rawText, parsed.error);
    }
    var generatedData := parsed.value;
    if !(hasPaired && |split| > 0) {
      return ParseFailed(rawText, NoOriginal);
    }
    var mergedData := split[0];
    var meaning := MergeSectionInto(mergedData, generatedData, "meaning", SupplementaryLangs);
    if meaning.Err? {
      return ParseFailed(rawText, meaning.error);
    }
    var content := MergeSectionInto(meaning.value, generatedData, "content", SupplementaryLangs);
    if content.Err? {
      return ParseFailed(rawText, content.error);
    }
    mergedData := content.value;
    var dialogue := Prop(mergedData, "dialogue");
    var newTurns := Get(generatedData, "dialogue_translations");
    if Truthy(dialogue) && dialogue.Arr? && Truthy(newTurns) && newTurns.Arr? {
      var turns := MergeTurnsLoop(dialogue.items, newTurns, SupplementaryLangs);
      if turns.Err? {
        return ParseFailed(rawText, turns.error);
      }
      mergedData := mergedData["dialogue" := Arr(turns.value)];
    }
    return mergedData;
  }
}
