/**
 * The three content validators as the sources write them: an `errors` list
 * that nested loops push to, `checkEnglishInclusion` appending to the list
 * it is given, and the n8n execution blocks that run the check over every
 * input item.  Each method is proved to push exactly the violations the
 * rule functions of module `ContentRules` describe, in the same order.
 */
module Validation {
  import opened Common
  import opened Text
  import opened Scripts
  import opened ContentModel
  import opened AddressCheck
  import opened ContentRules

  // ------------------------------------------------- checkEnglishInclusion

  /** `checkEnglishInclusion(text, context, errors)`: keep the scanned words
    * that are neither allow-listed nor capital-initial, and push one report
    * listing them when there are any. */
  method CheckEnglishInclusion(text: string, place: Place, errors: seq<Violation>) returns (out: seq<Violation>)
    ensures out == errors + LeakErrors(text, place)
  {
    var matches := AsciiWords(text);
    var invalid := FilterLeaks(matches, AllowedEnglishTerms);
    assert invalid == LeakedWords(text, AllowedEnglishTerms);
    out := errors;
    if |invalid| > 0 {
      out := out + [EnglishLeakage(place, invalid)];
    }
  }

  // ------------------------------------------------------------------ tags

  method CheckTag(tag: string, errors: seq<Violation>) returns (out: seq<Violation>)
    ensures out == errors + TagErrors(tag)
  {
    out := errors;
    if '#' in tag {
      out := out + [TagContainsHash(tag)];
    }
    var e1 := out;
    if tag != ToLower(tag) {
      out := out + [TagNotLowercase(tag)];
    }
    var e2 := out;
    if !HasAsciiLetter(tag) {
      out := out + [TagWithoutLetters(tag)];
    }
    var e3 := out;
    if HasScript(tag, Hangul) || HasScript(tag, Kana) || HasScript(tag, Cyrillic) || HasScript(tag, Arabic) {
      out := out + [TagNotEnglishOnly(tag)];
    }
    assert out == errors + (e1[|errors|..] + e2[|e1|..] + e3[|e2|..] + out[|e3|..]);
  }

  /** `item.tags.forEach(...)` over a tag list. */
  method CheckTags(tags: Tags, errors: seq<Violation>) returns (out: seq<Violation>)
    ensures out == errors + TagsErrors(tags)
  {
    out := errors;
    if tags.TagList? {
      var ts := tags.tags;
      var i := 0;
      while i < |ts|
        invariant 0 <= i <= |ts|
        invariant out == errors + FlatMap(ts[..i], TagErrors)
      {
        var acc := out;
        out := CheckTag(ts[i], out);
        FlatMapStep(errors, ts[..i], ts[i], TagErrors, acc, out);
        assert ts[..i + 1] == ts[..i] + [ts[i]];
        i := i + 1;
      }
      assert ts[..i] == ts;
    }
  }

  // -------------------------------------------------------------- meanings

  /** The foreign-script checks on a present meaning text. */
  method CheckMeaningScripts(text: string, lang: string, errors: seq<Violation>) returns (out: seq<Violation>)
    ensures out == errors + MeaningScriptErrors(text, lang)
  {
    out := errors;
    if lang == "ko" && (HasScript(text, Kana) || HasScript(text, Han)) {
      out := out + [MeaningForeignScript(lang)];
    }
    if lang == "ja" && HasScript(text, Hangul) {
      out := out + [MeaningHangul(lang)];
    }
  }

  /** The punctuation checks on a present meaning text. */
  method CheckPunctuation(text: string, lang: string, v: Variant, errors: seq<Violation>) returns (out: seq<Violation>)
    ensures out == errors + PunctuationErrors(text, lang, v)
  {
    out := errors;
    match v {
      case Strict =>
        if Contains(ReplaceAll(text, "...", ""), ".") {
          out := out + [MeaningHasPeriod(lang)];
        }
        if ';' in text {
          out := out + [MeaningHasSemicolon(lang)];
        }
        if IdeographicFullStop in text {
          out := out + [MeaningHasIdeographicStop(lang)];
        }
      case Database =>
        var t := Trim(text);
        if EndsWith(t, ".") && !EndsWith(t, "...") {
          out := out + [MeaningEndsWithPeriod(lang)];
        }
      case Relaxed =>
    }
  }

  /** The checks on `item.meaning[lang]`, with the early `return` for a
    * missing text. */
  method CheckMeaning(m: map<string, string>, lang: string, v: Variant, errors: seq<Violation>)
    returns (out: seq<Violation>)
    ensures out == errors + MeaningLangErrors(m, lang, v)
  {
    var text := Lookup(m, lang);
    out := errors;
    if text == "" {
      if v != Relaxed {
        out := out + [MeaningMissing(lang)];
      }
      return;
    }
    out := CheckMeaningScripts(text, lang, out);
    var e1 := out;
    if lang in NonLatinLangs {
      out := CheckEnglishInclusion(text, MeaningOf(lang), out);
    }
    var e2 := out;
    AppendSteps(errors, MeaningScriptErrors(text, lang), MeaningLeakErrors(text, lang), e1, e2);
    out := CheckPunctuation(text, lang, v, out);
    AppendSteps(errors, MeaningScriptErrors(text, lang) + MeaningLeakErrors(text, lang),
      PunctuationErrors(text, lang, v), e2, out);
  }

  /** `meaningLangs.forEach(...)`. */
  method CheckMeanings(meaning: Option<map<string, string>>, v: Variant, errors: seq<Violation>)
    returns (out: seq<Violation>)
    ensures out == errors + MeaningErrors(meaning, v)
  {
    out := errors;
    if meaning.Some? {
      var langs := MeaningLangs(v);
      var f := lang => MeaningLangErrors(meaning.value, lang, v);
      var i := 0;
      while i < |langs|
        invariant 0 <= i <= |langs|
        invariant out == errors + FlatMap(langs[..i], f)
      {
        var acc := out;
        out := CheckMeaning(meaning.value, langs[i], v, out);
        FlatMapStep(errors, langs[..i], langs[i], f, acc, out);
        assert langs[..i + 1] == langs[..i] + [langs[i]];
        i := i + 1;
      }
      assert langs[..i] == langs;
    }
  }

  // --------------------------------------------------------------- content

  /** The label tests `/\nA\.\s/`, `/^A\.\s/`, `/\nB\.\s/` and `/\nC\.\s/`
    * on a question, collecting the missing labels. */
  method CheckLabels(lang: string, question: string, errors: seq<Violation>) returns (out: seq<Violation>)
    ensures out == errors + LabelErrors(lang, question)
  {
    out := errors;
    if question != "" {
      var hasA := LabelAfterNewline(question, 'A') || LabelAt(question, 0, 'A');
      var hasB := LabelAfterNewline(question, 'B');
      var hasC := LabelAfterNewline(question, 'C');
      if !hasA || !hasB || !hasC {
        var missing: seq<char> := [];
        if !hasA { missing := missing + ['A']; }
        if !hasB { missing := missing + ['B']; }
        if !hasC { missing := missing + ['C']; }
        assert missing == MissingLabels(question);
        out := out + [QuestionMissingLabels(lang, missing)];
      } else {
        assert MissingLabels(question) == [];
      }
    }
  }

  /** The checks on a present quiz object. */
  method CheckQuiz(lang: string, q: Quiz, errors: seq<Violation>) returns (out: seq<Violation>)
    ensures out == errors + QuizErrors(lang, q)
  {
    out := errors;
    if q.question == "" {
      out := out + [QuestionMissing(lang)];
    }
    if q.answer == "" {
      out := out + [AnswerMissing(lang)];
    }
    if q.hasOptions {
      out := out + [QuizHasOptionsField(lang)];
    }
    var e1 := out;
    ghost var pre := (if q.question == "" then [QuestionMissing(lang)] else [])
      + (if q.answer == "" then [AnswerMissing(lang)] else [])
      + (if q.hasOptions then [QuizHasOptionsField(lang)] else []);
    assert e1 == errors + pre;
    out := CheckLabels(lang, q.question, out);
    AppendSteps(errors, pre, LabelErrors(lang, q.question), e1, out);
  }

  /** The structural checks of a content entry and its quiz. */
  method CheckQuizStructure(e: ContentEntry, lang: string, errors: seq<Violation>) returns (out: seq<Violation>)
    ensures out == errors + QuizStructureErrors(e, lang)
  {
    out := errors;
    if e.situation == "" {
      out := out + [SituationMissing(lang)];
    }
    if e.tip == "" {
      out := out + [TipMissing(lang)];
    }
    var e1 := out;
    ghost var pre := (if e.situation == "" then [SituationMissing(lang)] else [])
      + (if e.tip == "" then [TipMissing(lang)] else []);
    assert e1 == errors + pre;
    match e.quiz {
      case None =>
        out := out + [QuizMissing(lang)];
      case Some(q) =>
        out := CheckQuiz(lang, q, out);
    }
    AppendSteps(errors, pre, match e.quiz case None => [QuizMissing(lang)] case Some(q) => QuizErrors(lang, q), e1, out);
  }

  /** `fieldsToCheck.forEach(...)`. */
  method CheckFields(lang: string, fields: seq<string>, errors: seq<Violation>) returns (out: seq<Violation>)
    ensures out == errors + FieldsErrors(lang, fields)
  {
    out := errors;
    var f := t => FieldScriptErrors(lang, t);
    var i := 0;
    while i < |fields|
      invariant 0 <= i <= |fields|
      invariant out == errors + FlatMap(fields[..i], f)
    {
      var text := fields[i];
      FlatMapSnoc(fields[..i], text, f);
      assert fields[..i + 1] == fields[..i] + [text];
      if lang == "ko" && HasScript(text, Kana) {
        out := out + [ContentKana(lang)];
      } else if lang == "ja" && HasScript(text, Hangul) {
        out := out + [ContentHangul(lang)];
      } else if lang in LatinLangs {
        if HasForeignScript(text) {
          out := out + [ContentForeignScript(lang)];
        }
      }
      i := i + 1;
    }
    assert fields[..i] == fields;
  }

  /** The `lines.forEach(...)` that collects the option texts. */
  method CollectOptions(lines: seq<string>) returns (opts: seq<string>)
    ensures opts == OptionTexts(lines)
  {
    opts := [];
    var i := 0;
    while i < |lines|
      invariant 0 <= i <= |lines|
      invariant opts == FlatMap(lines[..i], OptionOf)
    {
      var acc := opts;
      opts := PushOption(lines[i], opts);
      FlatMapStep([], lines[..i], lines[i], OptionOf, acc, opts);
      assert lines[..i + 1] == lines[..i] + [lines[i]];
      i := i + 1;
    }
    assert lines[..i] == lines;
  }

  /** The body of the option loop: a label line pushes its trimmed text. */
  method PushOption(line: string, opts: seq<string>) returns (out: seq<string>)
    ensures out == opts + OptionOf(line)
  {
    out := opts;
    var trimmed := Trim(line);
    if IsLabelLine(trimmed) {
      out := out + [Trim(trimmed[2..])];
    }
  }

  /** `opts.filter(isTarget).length`. */
  method CountTarget(lang: string, opts: seq<string>) returns (cnt: nat)
    ensures cnt == TargetCount(lang, opts)
  {
    cnt := 0;
    var p := o => IsTargetScript(lang, o);
    var i := 0;
    while i < |opts|
      invariant 0 <= i <= |opts|
      invariant cnt == |Filter(opts[..i], p)|
    {
      FilterSnoc(opts[..i], opts[i], p);
      assert opts[..i + 1] == opts[..i] + [opts[i]];
      if IsTargetScript(lang, opts[i]) {
        cnt := cnt + 1;
      }
      i := i + 1;
    }
    assert opts[..i] == opts;
  }

  /** The `for (const line of lines)` loop that gathers the question body,
    * leaving at the first line that starts with `A.`. */
  method GatherQuestionBody(lines: seq<string>) returns (body: string)
    ensures body == QuestionBody(lines)
  {
    body := "";
    var i := 0;
    while i < |lines| && !IsALine(lines[i])
      invariant 0 <= i <= FirstALine(lines)
      invariant body == FlatMap(lines[..i], Spaced)
    {
      BeforeFirstA(lines, i);
      var acc := body;
      body := body + lines[i] + " ";
      FlatMapStep("", lines[..i], lines[i], Spaced, acc, body);
      assert lines[..i + 1] == lines[..i] + [lines[i]];
      i := i + 1;
    }
    StopsAtFirstA(lines, i);
  }

  /** `ps.forEach(p => { checkBody = checkBody.replace(new RegExp(p, "gi"), ""); })`. */
  method RemoveEach(s: string, ps: seq<string>) returns (r: string)
    requires forall k :: 0 <= k < |ps| ==> |ps[k]| > 0
    ensures r == RemoveEachIgnoreCase(s, ps)
  {
    r := s;
    var i := 0;
    while i < |ps|
      invariant 0 <= i <= |ps|
      invariant RemoveEachIgnoreCase(r, ps[i..]) == RemoveEachIgnoreCase(s, ps)
    {
      assert ps[i..][1..] == ps[i + 1..];
      r := RemoveAllIgnoreCase(r, ps[i]);
      i := i + 1;
    }
  }

  /** The option-consistency rules on a present quiz question. */
  method CheckOptions(lang: string, question: string, v: Variant, errors: seq<Violation>) returns (out: seq<Violation>)
    ensures out == errors + OptionErrors(lang, question, v)
  {
    out := errors;
    var lines := Split(question, "\n");
    var opts := CollectOptions(lines);
    if |opts| == 3 {
      var cnt := CountTarget(lang, opts);
      if cnt != 0 && cnt != 3 {
        out := out + [OptionsMixedScripts(lang)];
      }
      var e1 := out;
      ghost var mixed := if cnt != 0 && cnt != 3 then [OptionsMixedScripts(lang)] else [];
      if v == Strict {
        out := CheckPattern(lang, lines, cnt, out);
      }
      AppendSteps(errors, mixed, if v == Strict then PatternErrors(lang, lines, cnt) else [], e1, out);
    }
  }

  /** The strict validator's question-pattern rule. */
  method CheckPattern(lang: string, lines: seq<string>, cnt: nat, errors: seq<Violation>) returns (out: seq<Violation>)
    ensures out == errors + PatternErrors(lang, lines, cnt)
  {
    out := errors;
    var body := GatherQuestionBody(lines);
    AllowedNonEmpty();
    var checkBody := RemoveEach(body, AllowedNames);
    checkBody := RemoveEach(checkBody, AllowedEnglishTerms);
    assert checkBody == CheckBody(QuestionBody(lines));
    if HasAsciiWord(checkBody) {
      if cnt != 3 {
        out := out + [PatternNeedsTargetOptions(lang)];
      }
    } else {
      if cnt != 0 {
        out := out + [PatternNeedsEnglishOptions(lang)];
      }
    }
  }

  /** `quiz.answer` must be one of A, B and C when present. */
  method CheckAnswer(e: ContentEntry, lang: string, errors: seq<Violation>) returns (out: seq<Violation>)
    ensures out == errors + AnswerErrors(e, lang)
  {
    out := errors;
    if e.quiz.Some? && e.quiz.value.answer != "" && e.quiz.value.answer !in QuizLabels {
      out := out + [AnswerNotLabel(lang, e.quiz.value.answer)];
    }
  }

  /** The checks on `item.content[lang]`, with the early `return` for a
    * missing entry. */
  method CheckContentLang(c: map<string, ContentEntry>, lang: string, v: Variant, errors: seq<Violation>)
    returns (out: seq<Violation>)
    ensures out == errors + ContentLangErrors(c, lang, v)
  {
    out := errors;
    if lang !in c {
      if v != Relaxed {
        out := out + [ContentEntryMissing(lang)];
      }
      return;
    }
    var e := c[lang];
    if v != Relaxed {
      out := CheckQuizStructure(e, lang, out);
    }
    var e1 := out;
    ghost var structure := if v == Relaxed then [] else QuizStructureErrors(e, lang);
    out := CheckFields(lang, Fields(e, v), out);
    var e2 := out;
    AppendSteps(errors, structure, FieldsErrors(lang, Fields(e, v)), e1, e2);
    out := CheckAnswer(e, lang, out);
    var e3 := out;
    AppendSteps(errors, structure + FieldsErrors(lang, Fields(e, v)), AnswerErrors(e, lang), e2, e3);
    if v != Relaxed && lang in NonLatinLangs && e.quiz.Some? && e.quiz.value.question != "" {
      out := CheckOptions(lang, e.quiz.value.question, v, out);
    }
    AppendSteps(errors, structure + FieldsErrors(lang, Fields(e, v)) + AnswerErrors(e, lang),
      if v != Relaxed && lang in NonLatinLangs && e.quiz.Some? && e.quiz.value.question != ""
      then OptionErrors(lang, e.quiz.value.question, v) else [], e3, out);
  }

  /** `TARGET_LANGS.forEach(...)` over the content entries. */
  method CheckContent(content: Option<map<string, ContentEntry>>, v: Variant, errors: seq<Violation>)
    returns (out: seq<Violation>)
    ensures out == errors + ContentErrors(content, v)
  {
    out := errors;
    if content.Some? {
      var f := lang => ContentLangErrors(content.value, lang, v);
      var i := 0;
      while i < |TargetLangs|
        invariant 0 <= i <= |TargetLangs|
        invariant out == errors + FlatMap(TargetLangs[..i], f)
      {
        var acc := out;
        out := CheckContentLang(content.value, TargetLangs[i], v, out);
        FlatMapStep(errors, TargetLangs[..i], TargetLangs[i], f, acc, out);
        assert TargetLangs[..i + 1] == TargetLangs[..i] + [TargetLangs[i]];
        i := i + 1;
      }
      assert TargetLangs[..i] == TargetLangs;
    }
  }

  // -------------------------------------------------------------- dialogue

  /** English leakage in a translation: word by word for the non-Latin
    * languages, the whole expression for the others. */
  method CheckTranslationLeak(expression: string, idx: nat, lang: string, text: string, errors: seq<Violation>)
    returns (out: seq<Violation>)
    ensures out == errors + TranslationLeakErrors(expression, idx, lang, text)
  {
    out := errors;
    if lang in NonLatinLangs {
      out := CheckEnglishInclusion(text, TranslationOf(idx, lang), out);
    } else if expression != "" && Contains(ToLower(text), ToLower(expression)) {
      if |expression| > 4 {
        out := out + [ExpressionLeak(idx, lang, expression)];
      }
    }
  }

  /** The foreign-script checks on a translation. */
  method CheckTranslationScripts(idx: nat, lang: string, text: string, errors: seq<Violation>)
    returns (out: seq<Violation>)
    ensures out == errors + TranslationScriptErrors(idx, lang, text)
  {
    out := errors;
    if lang == "ko" && (HasScript(text, Kana) || HasScript(text, Han)) {
      out := out + [TranslationForeignScript(idx, lang)];
    }
    if lang == "ja" && HasScript(text, Hangul) {
      out := out + [TranslationHangul(idx, lang)];
    }
  }

  /** The checks on `dItem.translations[lang]`, with the early `return` for
    * an absent text. */
  method CheckTranslation(expression: string, idx: nat, lang: string, text: string, errors: seq<Violation>)
    returns (out: seq<Violation>)
    ensures out == errors + TranslationErrors(expression, idx, lang, text)
  {
    out := errors;
    if text == "" {
      return;
    }
    if Contains(text, "**") || Contains(text, "__") {
      out := out + [TranslationMarkdown(idx, lang, text)];
    }
    var e1 := out;
    out := CheckTranslationLeak(expression, idx, lang, text, out);
    var e2 := out;
    AppendSteps(errors, MarkdownErrors(idx, lang, text), TranslationLeakErrors(expression, idx, lang, text), e1, e2);
    out := CheckTranslationScripts(idx, lang, text, out);
    AppendSteps(errors, MarkdownErrors(idx, lang, text) + TranslationLeakErrors(expression, idx, lang, text),
      TranslationScriptErrors(idx, lang, text), e2, out);
  }

  /** `addressingPatterns.forEach(...)`: one report per candidate name of the
    * speaker's own gender. */
  method CheckAddressing(idx: nat, role: string, names: seq<string>, errors: seq<Violation>)
    returns (out: seq<Violation>)
    ensures out == errors + GenderErrors(idx, role, names)
  {
    out := errors;
    var f := name => NameErrors(idx, role, name);
    var i := 0;
    while i < |names|
      invariant 0 <= i <= |names|
      invariant out == errors + FlatMap(names[..i], f)
    {
      var name := names[i];
      FlatMapSnoc(names[..i], name, f);
      assert names[..i + 1] == names[..i] + [name];
      if role == "A" && name in FemaleNames {
        out := out + [FemaleAddressesFemale(idx, name)];
      }
      if role == "B" && name in MaleNames {
        out := out + [MaleAddressesMale(idx, name)];
      }
      i := i + 1;
    }
    assert names[..i] == names;
  }

  /** `TARGET_LANGS.forEach(...)` over the translations of turn `idx`. */
  method CheckTranslations(expression: string, idx: nat, tr: map<string, string>, errors: seq<Violation>)
    returns (out: seq<Violation>)
    ensures out == errors + TranslationsErrors(expression, idx, tr)
  {
    out := errors;
    var i := 0;
    while i < |TargetLangs|
      invariant 0 <= i <= |TargetLangs|
      invariant out == errors + TranslationsOf(expression, idx, tr, TargetLangs[..i])
    {
      var lang := TargetLangs[i];
      var acc := out;
      out := CheckTranslation(expression, idx, lang, Lookup(tr, lang), out);
      AppendSteps(errors, TranslationsOf(expression, idx, tr, TargetLangs[..i]),
        TranslationErrors(expression, idx, lang, Lookup(tr, lang)), acc, out);
      TranslationsOfSnoc(expression, idx, tr, TargetLangs[..i], lang);
      assert TargetLangs[..i + 1] == TargetLangs[..i] + [lang];
      i := i + 1;
    }
    assert TargetLangs[..i] == TargetLangs;
  }

  /** The checks on dialogue turn `idx`. */
  method CheckTurn(expression: string, idx: nat, t: Turn, v: Variant, errors: seq<Violation>)
    returns (out: seq<Violation>)
    ensures out == errors + TurnErrors(expression, idx, t, v)
  {
    out := errors;
    if t.en != "" && (HasScript(t.en, Hangul) || HasScript(t.en, Kana)) {
      out := out + [DialogueEnNotEnglish(idx)];
    }
    var e1 := out;
    ghost var script := if t.en != "" && (HasScript(t.en, Hangul) || HasScript(t.en, Kana))
      then [DialogueEnNotEnglish(idx)] else [];
    if t.translations.Some? {
      out := CheckTranslations(expression, idx, t.translations.value, out);
    }
    var e2 := out;
    ghost var translations := if t.translations.Some? then TranslationsErrors(expression, idx, t.translations.value) else [];
    AppendSteps(errors, script, translations, e1, e2);
    if v == Strict && t.role != "" && t.en != "" {
      out := CheckAddressing(idx, t.role, AddressedAsWritten(t.en), out);
    }
    AppendSteps(errors, script + translations,
      if v == Strict && t.role != "" && t.en != "" then GenderErrors(idx, t.role, AddressedAsWritten(t.en)) else [], e2, out);
  }

  /** `dialogue.forEach((dItem, idx) => ...)`: every turn with its index. */
  method CheckTurns(expression: string, d: seq<Turn>, v: Variant, errors: seq<Violation>) returns (out: seq<Violation>)
    ensures out == errors + TurnsErrors(expression, d, v)
  {
    out := errors;
    var idx := 0;
    while idx < |d|
      invariant 0 <= idx <= |d|
      invariant out == errors + TurnsErrors(expression, d[..idx], v)
    {
      var acc := out;
      out := CheckTurn(expression, idx, d[idx], v, out);
      AppendSteps(errors, TurnsErrors(expression, d[..idx], v), TurnErrors(expression, idx, d[idx], v), acc, out);
      TurnsErrorsSnoc(expression, d, idx, v);
      idx := idx + 1;
    }
    assert d[..idx] == d;
  }

  /** The length rule, then the turns. */
  method CheckDialogue(item: ContentItem, v: Variant, errors: seq<Violation>) returns (out: seq<Violation>)
    ensures out == errors + DialogueErrors(item, v)
  {
    out := errors;
    if item.dialogue.Some? {
      var d := item.dialogue.value;
      if v != Relaxed && (|d| < 2 || |d| > 4) {
        out := out + [DialogueLength(|d|)];
      }
      var e1 := out;
      ghost var length := if v != Relaxed && (|d| < 2 || |d| > 4) then [DialogueLength(|d|)] else [];
      out := CheckTurns(item.expression, d, v, out);
      AppendSteps(errors, length, TurnsErrors(item.expression, d, v), e1, out);
    }
  }

  // ------------------------------------------------------------ validateItem

  /** The missing-field pushes that open `validateItem`. */
  method CheckMissingFields(item: ContentItem) returns (errors: seq<Violation>)
    ensures errors == MissingFieldErrors(item)
  {
    errors := [];
    if item.expression == "" { errors := errors + [MissingExpression]; }
    if item.meaning.None? { errors := errors + [MissingMeaning]; }
    if item.content.None? { errors := errors + [MissingContent]; }
    if item.tags.NoTags? { errors := errors + [MissingTags]; }
  }

  /** The dialogue-shape pushes. */
  method CheckDialogueShape(item: ContentItem, v: Variant, errors: seq<Violation>) returns (out: seq<Violation>)
    ensures out == errors + DialogueShapeErrors(item, v)
  {
    out := errors;
    if item.dialogue.None? {
      out := out + [MissingDialogue];
    } else if v != Relaxed && |item.dialogue.value| == 0 {
      out := out + [EmptyDialogue];
    }
  }

  /** The expression-punctuation push. */
  method CheckExpressionPunctuation(item: ContentItem, v: Variant, errors: seq<Violation>) returns (out: seq<Violation>)
    ensures out == errors + ExpressionPunctuationErrors(item, v)
  {
    out := errors;
    if v != Relaxed && item.expression != "" && EndsWithPunctuation(Trim(item.expression)) {
      out := out + [ExpressionEndsWithPunctuation];
    }
  }

  /** The top-level structure checks, the first pushes of `validateItem`. */
  method CheckStructure(item: ContentItem, v: Variant) returns (errors: seq<Violation>)
    ensures errors == StructureErrors(item, v)
  {
    errors := CheckMissingFields(item);
    var e1 := errors;
    assert e1 == [] + MissingFieldErrors(item);
    errors := CheckDialogueShape(item, v, errors);
    var e2 := errors;
    AppendSteps([], MissingFieldErrors(item), DialogueShapeErrors(item, v), e1, e2);
    errors := CheckExpressionPunctuation(item, v, errors);
    AppendSteps([], MissingFieldErrors(item) + DialogueShapeErrors(item, v),
      ExpressionPunctuationErrors(item, v), e2, errors);
  }

  /** `validateItem(item)`: the sections in order, then `{valid, errors}`. */
  method ValidateItem(item: ContentItem, v: Variant) returns (r: ValidationResult)
    ensures r == Validate(item, v)
    ensures r.valid <==> r.errors == []
  {
    var errors := CheckStructure(item, v);
    var e1 := errors;
    errors := CheckTags(item.tags, errors);
    var e2 := errors;
    AppendSteps([], StructureErrors(item, v), TagsErrors(item.tags), e1, e2);
    errors := CheckMeanings(item.meaning, v, errors);
    var e3 := errors;
    AppendSteps([], StructureErrors(item, v) + TagsErrors(item.tags), MeaningErrors(item.meaning, v), e2, e3);
    errors := CheckContent(item.content, v, errors);
    var e4 := errors;
    AppendSteps([], StructureErrors(item, v) + TagsErrors(item.tags) + MeaningErrors(item.meaning, v),
      ContentErrors(item.content, v), e3, e4);
    errors := CheckDialogue(item, v, errors);
    AppendSteps([], StructureErrors(item, v) + TagsErrors(item.tags) + MeaningErrors(item.meaning, v)
      + ContentErrors(item.content, v), DialogueErrors(item, v), e4, errors);
    assert errors == ItemErrors(item, v);
    r := ValidationResult(|errors| == 0, errors);
  }

  // ------------------------------------------------------- execution blocks

  /** `item.json._validation` as the strict validator sets it. */
  datatype Mark = MarkError(errors: seq<Violation>) | MarkSuccess

  /** An n8n input item: its JSON record, the `_validation` key of that record
    * (absent until the strict validator marks it) and `pairedItem`. */
  datatype WorkItem = WorkItem(json: ContentItem, validation: Option<Mark>, pairedItem: nat)

  /** `{ expression, errors }` of `allViolations`. */
  datatype Report = Report(expression: string, errors: seq<Violation>)

  /** An entry of `invalidItems`: the item, whose JSON record gains
    * `_validationErrors` and `_validationStatus: "error"`. */
  datatype Rejected = Rejected(item: WorkItem, errors: seq<Violation>)

  /** The execution blocks are stated over the `validateItem` they call:
    * `check` is `item => Validate(item, Strict)` for the strict block and
    * `item => Validate(item, Relaxed)` for the relaxed one. */
  predicate Passes(check: ContentItem -> ValidationResult, it: WorkItem) {
    check(it.json).valid
  }

  /** The item with the mark the strict validator gives it. */
  function Marked(check: ContentItem -> ValidationResult, it: WorkItem): WorkItem {
    var r := check(it.json);
    it.(validation := Some(if r.valid then MarkSuccess else MarkError(r.errors)))
  }

  /** The violation report an item contributes, if it fails. */
  function ReportOf(check: ContentItem -> ValidationResult, it: WorkItem): seq<Report> {
    var r := check(it.json);
    if r.valid then [] else [Report(it.json.expression, r.errors)]
  }

  function Reports(check: ContentItem -> ValidationResult, items: seq<WorkItem>): seq<Report> {
    FlatMap(items, it => ReportOf(check, it))
  }

  lemma ReportsSnoc(check: ContentItem -> ValidationResult, items: seq<WorkItem>, it: WorkItem)
    ensures Reports(check, items + [it]) == Reports(check, items) + ReportOf(check, it)
  {
    FlatMapSnoc(items, it, it => ReportOf(check, it));
  }

  /** The strict execution block: validate and mark every item, then throw
    * (`Err`) with the collected reports if any item failed, or pass all the
    * (marked) items on. */
  method RunStrict(items: array<WorkItem>, check: ContentItem -> ValidationResult)
    returns (outcome: Result<seq<WorkItem>, seq<Report>>)
    modifies items
    ensures forall k :: 0 <= k < items.Length ==> items[k] == Marked(check, old(items[k]))
    ensures outcome == if Reports(check, old(items[..])) == [] then Ok(items[..])
                       else Err(Reports(check, old(items[..])))
  {
    ghost var input := items[..];
    var allViolations: seq<Report> := [];
    var i := 0;
    while i < items.Length
      invariant 0 <= i <= items.Length
      invariant forall k :: 0 <= k < i ==> items[k] == Marked(check, input[k])
      invariant forall k :: i <= k < items.Length ==> items[k] == input[k]
      invariant allViolations == Reports(check, input[..i])
    {
      var it := items[i];
      var result := check(it.json);
      ReportsSnoc(check, input[..i], it);
      assert input[..i + 1] == input[..i] + [it];
      if !result.valid {
        allViolations := allViolations + [Report(it.json.expression, result.errors)];
        items[i] := it.(validation := Some(MarkError(result.errors)));
      } else {
        items[i] := it.(validation := Some(MarkSuccess));
      }
      i := i + 1;
    }
    assert input[..i] == input;
    if |allViolations| > 0 {
      outcome := Err(allViolations);
    } else {
      outcome := Ok(items[..]);
    }
  }

  /** The run passes exactly when every item is valid. */
  lemma {:induction false} ReportsEmptyIff(check: ContentItem -> ValidationResult, items: seq<WorkItem>)
    ensures Reports(check, items) == [] <==> forall k :: 0 <= k < |items| ==> Passes(check, items[k])
    decreases |items|
  {
    if items != [] {
      var init := items[..|items| - 1];
      var last := items[|items| - 1];
      ReportsEmptyIff(check, init);
      ReportsSnoc(check, init, last);
      assert items == init + [last];
      assert forall k :: 0 <= k < |init| ==> init[k] == items[k];
    }
  }

  /** Each report names a failing item, by its expression, with all of that
    * item's errors. */
  lemma ReportsFromFailures(check: ContentItem -> ValidationResult, items: seq<WorkItem>, rep: Report)
    requires rep in Reports(check, items)
    ensures exists k :: (0 <= k < |items| && !Passes(check, items[k])
                         && rep == Report(items[k].json.expression, check(items[k].json).errors))
  {
    FlatMapMember(items, it => ReportOf(check, it), rep);
  }

  /** A strict report always carries at least one error. */
  lemma StrictReportErrors(items: seq<WorkItem>, rep: Report)
    requires rep in Reports(item => Validate(item, Strict), items)
    ensures rep.errors != []
  {
    ReportsFromFailures(item => Validate(item, Strict), items, rep);
  }

  function RejectedOf(check: ContentItem -> ValidationResult, it: WorkItem): seq<Rejected> {
    var r := check(it.json);
    if r.valid then [] else [Rejected(it, r.errors)]
  }

  /** The relaxed execution block: the valid items keep their JSON record and
    * `pairedItem` and go on; the invalid ones are set aside with their
    * errors (and only logged). */
  method RunRelaxed(items: seq<WorkItem>, check: ContentItem -> ValidationResult)
    returns (validItems: seq<WorkItem>, invalidItems: seq<Rejected>)
    ensures validItems == Filter(items, it => Passes(check, it))
    ensures invalidItems == FlatMap(items, it => RejectedOf(check, it))
  {
    validItems := [];
    invalidItems := [];
    var i := 0;
    while i < |items|
      invariant 0 <= i <= |items|
      invariant validItems == Filter(items[..i], it => Passes(check, it))
      invariant invalidItems == FlatMap(items[..i], it => RejectedOf(check, it))
    {
      var it := items[i];
      FilterSnoc(items[..i], it, it => Passes(check, it));
      FlatMapSnoc(items[..i], it, it => RejectedOf(check, it));
      assert items[..i + 1] == items[..i] + [it];
      var result := check(it.json);
      if result.valid {
        validItems := validItems + [WorkItem(it.json, it.validation, it.pairedItem)];
      } else {
        invalidItems := invalidItems + [Rejected(it, result.errors)];
      }
      i := i + 1;
    }
    assert items[..i] == items;
  }

  /** An item goes on exactly when it is valid; when every item fails,
    * nothing goes on. */
  lemma RelaxedKeepsValid(check: ContentItem -> ValidationResult, items: seq<WorkItem>, it: WorkItem)
    ensures it in Filter(items, it => Passes(check, it)) <==> it in items && Passes(check, it)
    ensures (forall k :: 0 <= k < |items| ==> !Passes(check, items[k])) ==> Filter(items, it => Passes(check, it)) == []
  {
    FilterMember(items, it => Passes(check, it), it);
    if Filter(items, it => Passes(check, it)) != [] {
      var w := Filter(items, it => Passes(check, it))[0];
      FilterMember(items, it => Passes(check, it), w);
    }
  }

  /** Every item of the input ends up on exactly one of the two lists. */
  lemma RelaxedPartition(check: ContentItem -> ValidationResult, items: seq<WorkItem>, it: WorkItem)
    requires it in items
    ensures it in Filter(items, it => Passes(check, it)) <==>
      Rejected(it, check(it.json).errors) !in FlatMap(items, it => RejectedOf(check, it))
  {
    FilterMember(items, it => Passes(check, it), it);
    FlatMapMember(items, it => RejectedOf(check, it), Rejected(it, check(it.json).errors));
  }
}
