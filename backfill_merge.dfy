/**
 * What the backfill merge nodes share: the fence stripping around the
 * model's JSON, the per-language overwrite of a translations object, and the
 * per-turn merge of generated translations into a dialogue.
 *
 * JavaScript's rules for writes are followed where a merge can meet them: a
 * property read on `null` or `undefined` fails, and a property write on any
 * other primitive is ignored (non-strict code).  Arrays and dates are not
 * given named properties: a write to one is treated like a write to a
 * primitive.
 */
module BackfillMerge {
  import opened Common
  import opened Text
  import opened JsValues

  /** `rawText.replace(/```json/g, "").replace(/`/g, "").trim()`. */
  function CleanJson(rawText: string): (r: string)
    ensures forall i :: 0 <= i < |r| ==> r[i] != '`'
  {
    var noFence := ReplaceAll(rawText, "```json", "");
    var noTicks := ReplaceAll(noFence, "`", "");
    ReplaceAllCharGone(noFence, '`', "");
    TrimShape(noTicks);
    Trim(noTicks)
  }

  /** `source[lang]` is copied for each `lang` for which it is truthy. */
  function MergeLangs(target: map<string, JsValue>, source: JsValue, langs: seq<string>): map<string, JsValue>
    decreases |langs|
  {
    if langs == [] then target
    else
      var merged := MergeLangs(target, source, langs[..|langs| - 1]);
      var lang := langs[|langs| - 1];
      if Truthy(Get(source, lang)) then merged[lang := Get(source, lang)] else merged
  }

  /** The languages the source overwrites. */
  predicate Overwrites(source: JsValue, langs: seq<string>, key: string) {
    key in langs && Truthy(Get(source, key))
  }

  /** Exactly the listed languages with a truthy source value are
    * overwritten, with that value; every other key keeps its value. */
  lemma {:induction false} MergeLangsEffect(target: map<string, JsValue>, source: JsValue, langs: seq<string>)
    ensures forall k :: k in MergeLangs(target, source, langs) <==> k in target || Overwrites(source, langs, k)
    ensures forall k :: Overwrites(source, langs, k) ==> MergeLangs(target, source, langs)[k] == Get(source, k)
    ensures forall k :: k in target && !Overwrites(source, langs, k) ==> MergeLangs(target, source, langs)[k] == target[k]
    decreases |langs|
  {
    if langs != [] {
      var init := langs[..|langs| - 1];
      MergeLangsEffect(target, source, init);
      assert forall k :: k in langs <==> k in init || k == langs[|langs| - 1];
    }
  }

  /** `langs.forEach(lang => { if (source[lang]) target[lang] = source[lang]; })`. */
  method MergeLangsInto(target: map<string, JsValue>, source: JsValue, langs: seq<string>) returns (r: map<string, JsValue>)
    ensures r == MergeLangs(target, source, langs)
  {
    r := target;
    var i := 0;
    while i < |langs|
      invariant 0 <= i <= |langs|
      invariant r == MergeLangs(target, source, langs[..i])
    {
      assert langs[..i + 1][..i] == langs[..i];
      var lang := langs[i];
      if Truthy(Get(source, lang)) {
        r := r[lang := Get(source, lang)];
      }
      i := i + 1;
    }
    assert langs[..|langs|] == langs;
  }

  /** Some listed language has a truthy source value. */
  predicate AnyOverwrite(source: JsValue, langs: seq<string>) {
    exists k :: k in langs && Truthy(Get(source, k))
  }

  /** `if (!turn.translations) turn.translations = {};` followed by the
    * per-language overwrite of `turn.translations`. */
  function SetTranslations(turn: JsValue, source: JsValue, langs: seq<string>): Result<JsValue, string> {
    if turn.Null? || turn.Undefined? then Err(TypeError)
    else if !turn.Obj? then
      // the write of `{}` is ignored, so each overwrite writes to `undefined`
      if AnyOverwrite(source, langs) then Err(TypeError) else Ok(turn)
    else
      var before := Prop(turn.fields, "translations");
      var translations := if Truthy(before) then before else Obj(map[]);
      if translations.Obj? then
        Ok(Obj(turn.fields["translations" := Obj(MergeLangs(translations.fields, source, langs))]))
      else Ok(turn)
  }

  /** A write of translations fails only on a missing turn, or on a primitive
    * turn that is given some language; it changes no field of the turn but
    * `translations`, and in an object `translations` (new when there was
    * none) it overwrites exactly the listed languages with a truthy value. */
  lemma SetTranslationsEffect(turn: JsValue, source: JsValue, langs: seq<string>)
    ensures SetTranslations(turn, source, langs).Err? <==>
      turn.Null? || turn.Undefined? || (!turn.Obj? && AnyOverwrite(source, langs))
    ensures SetTranslations(turn, source, langs).Err? ==> SetTranslations(turn, source, langs).error == TypeError
    ensures SetTranslations(turn, source, langs).Ok? && !turn.Obj? ==> SetTranslations(turn, source, langs).value == turn
    ensures SetTranslations(turn, source, langs).Ok? && turn.Obj? ==>
      var r := SetTranslations(turn, source, langs).value;
      var before := Prop(turn.fields, "translations");
      r.Obj?
      && (forall k :: k != "translations" ==> Get(r, k) == Get(turn, k))
      && (Truthy(before) && !before.Obj? ==> r == turn)
      && (before.Obj? || !Truthy(before) ==>
        var after := Get(r, "translations");
        after.Obj?
        && (forall k :: Overwrites(source, langs, k) ==> Get(after, k) == Get(source, k))
        && (forall k :: !Overwrites(source, langs, k) ==> Get(after, k) == Get(before, k)))
  {
    if turn.Obj? {
      var before := Prop(turn.fields, "translations");
      var translations := if Truthy(before) then before else Obj(map[]);
      if translations.Obj? {
        MergeLangsEffect(translations.fields, source, langs);
      }
    }
  }

  /** `array[index]` for each kind of value; reading any index of `null` or
    * `undefined` fails. */
  function Index(v: JsValue, i: nat): (r: Result<JsValue, string>)
    ensures r.Err? <==> v.Null? || v.Undefined?
    ensures r.Err? ==> r.error == TypeError
    ensures v.Arr? ==> r == Ok(if i < |v.items| then v.items[i] else Undefined)
  {
    match v
    case Null => Err(TypeError)
    case Undefined => Err(TypeError)
    case Arr(items) => Ok(if i < |items| then items[i] else Undefined)
    case Obj(fields) => Ok(Prop(fields, NatToString(i)))
    case Str(s) => Ok(if i < |s| then Str([s[i]]) else Undefined)
    case _ => Ok(Undefined)
  }

  /** The body of `dialogue.forEach((turn, index) => ...)` in the
    * translation merges: a turn with a truthy generated entry gets its
    * languages; any other turn is left alone. */
  function TurnStep(turn: JsValue, newTrans: JsValue, langs: seq<string>): Result<JsValue, string> {
    if Truthy(newTrans) then SetTranslations(turn, newTrans, langs) else Ok(turn)
  }

  /** The indices the loop gets through: the entry can be read and the turn
    * can take it. */
  predicate TurnOk(turns: seq<JsValue>, translations: JsValue, langs: seq<string>, i: int)
    requires 0 <= i < |turns|
  {
    Index(translations, i).Ok? && TurnStep(turns[i], Index(translations, i).value, langs).Ok?
  }

  /** The loop over the turns, stopping at the first failure. */
  function MergeTurns(turns: seq<JsValue>, translations: JsValue, langs: seq<string>): Result<seq<JsValue>, string>
    decreases |turns|
  {
    if turns == [] then Ok([])
    else
      match MergeTurns(turns[..|turns| - 1], translations, langs)
      case Err(e) => Err(e)
      case Ok(done) =>
        match Index(translations, |turns| - 1)
        case Err(e) => Err(e)
        case Ok(newTrans) =>
          match TurnStep(turns[|turns| - 1], newTrans, langs)
          case Err(e) => Err(e)
          case Ok(turn) => Ok(done + [turn])
  }

  /** The loop succeeds exactly when every turn goes through, and then turn
    * `i` is merged with entry `i` of the generated list. */
  lemma {:induction false} MergeTurnsEffect(turns: seq<JsValue>, translations: JsValue, langs: seq<string>)
    ensures MergeTurns(turns, translations, langs).Ok? <==> forall i :: 0 <= i < |turns| ==> TurnOk(turns, translations, langs, i)
    ensures MergeTurns(turns, translations, langs).Err? ==> MergeTurns(turns, translations, langs).error == TypeError
    ensures MergeTurns(turns, translations, langs).Ok? ==>
      var out := MergeTurns(turns, translations, langs).value;
      |out| == |turns|
      && forall i :: 0 <= i < |turns| ==>
        TurnOk(turns, translations, langs, i) && out[i] == TurnStep(turns[i], Index(translations, i).value, langs).value
    decreases |turns|
  {
    if turns != [] {
      var init := turns[..|turns| - 1];
      MergeTurnsEffect(init, translations, langs);
      assert forall i :: 0 <= i < |init| ==> init[i] == turns[i];
      assert forall i :: 0 <= i < |init| ==> (TurnOk(init, translations, langs, i) <==> TurnOk(turns, translations, langs, i));
      var last := |turns| - 1;
      if Index(translations, last).Ok? {
        SetTranslationsEffect(turns[last], Index(translations, last).value, langs);
      }
      if MergeTurns(turns, translations, langs).Ok? {
        var done := MergeTurns(init, translations, langs).value;
        var out := MergeTurns(turns, translations, langs).value;
        assert out == done + [TurnStep(turns[last], Index(translations, last).value, langs).value];
        forall i | 0 <= i < |turns|
          ensures TurnOk(turns, translations, langs, i) && out[i] == TurnStep(turns[i], Index(translations, i).value, langs).value
        {
          if i < |init| {
            assert out[i] == done[i];
          }
        }
      } else if MergeTurns(init, translations, langs).Err? {
        var i :| 0 <= i < |init| && !TurnOk(init, translations, langs, i);
        assert !TurnOk(turns, translations, langs, i);
      } else {
        assert !TurnOk(turns, translations, langs, last);
      }
    }
  }

  /** A merged turn keeps every field but `translations`: its `en` and its
    * `role` in particular. */
  lemma TurnKeepsText(turn: JsValue, newTrans: JsValue, langs: seq<string>, key: string)
    requires TurnStep(turn, newTrans, langs).Ok? && key != "translations"
    ensures Get(TurnStep(turn, newTrans, langs).value, key) == Get(turn, key)
  {
    SetTranslationsEffect(turn, newTrans, langs);
  }

  /** `dialogue.forEach(...)` over the turns. */
  method MergeTurnsLoop(turns: seq<JsValue>, translations: JsValue, langs: seq<string>) returns (r: Result<seq<JsValue>, string>)
    ensures r == MergeTurns(turns, translations, langs)
  {
    var done: seq<JsValue> := [];
    var index := 0;
    while index < |turns|
      invariant 0 <= index <= |turns|
      invariant MergeTurns(turns[..index], translations, langs) == Ok(done)
    {
      assert turns[..index + 1][..index] == turns[..index];
      var newTrans := Index(translations, index);
      if newTrans.Err? {
        MergeTurnsFails(turns, translations, langs, index + 1);
        return Err(TypeError);
      }
      var turn := TurnStep(turns[index], newTrans.value, langs);
      if turn.Err? {
        MergeTurnsFails(turns, translations, langs, index + 1);
        return Err(TypeError);
      }
      done := done + [turn.value];
      index := index + 1;
    }
    assert turns[..|turns|] == turns;
    return Ok(done);
  }

  /** A failure part way fails the whole loop. */
  lemma MergeTurnsFails(turns: seq<JsValue>, translations: JsValue, langs: seq<string>, n: nat)
    requires n <= |turns| && MergeTurns(turns[..n], translations, langs).Err?
    ensures MergeTurns(turns, translations, langs) == Err(TypeError)
  {
    MergeTurnsEffect(turns[..n], translations, langs);
    MergeTurnsEffect(turns, translations, langs);
    var i :| 0 <= i < n && !TurnOk(turns[..n], translations, langs, i);
    assert turns[..n][i] == turns[i];
  }
}
