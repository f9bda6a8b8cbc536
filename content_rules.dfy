/**
 * The rules of the three content validators as functions: for each section
 * of an expression record, the list of violations the validator pushes, in
 * the order it pushes them.  The `Variant` says which validator:
 *   Strict   n8n/expressions/code/11_validate_content.js
 *   Database verification/verify_db_data.js
 *   Relaxed  n8n/expressions/v2/12_validate_content_v2.js
 * The methods in module `Validation` compute the same lists with the loops
 * the sources use.
 */
module ContentRules {
  import opened Common
  import opened Text
  import opened Scripts
  import opened ContentModel
  import opened AddressCheck

  // ---------------------------------------------------------- structure

  /** `/[.,]$/.test(expression.trim())`. */
  predicate EndsWithPunctuation(s: string) {
    |s| > 0 && (s[|s| - 1] == '.' || s[|s| - 1] == ',')
  }

  /** The four falsy-field checks. */
  function MissingFieldErrors(item: ContentItem): seq<Violation> {
    (if item.expression == "" then [MissingExpression] else [])
    + (if item.meaning.None? then [MissingMeaning] else [])
    + (if item.content.None? then [MissingContent] else [])
    + (if item.tags.NoTags? then [MissingTags] else [])
  }

  /** The dialogue must be an array; the strict and database validators also
    * reject an empty one. */
  function DialogueShapeErrors(item: ContentItem, v: Variant): (r: seq<Violation>)
    ensures MissingDialogue in r <==> item.dialogue.None?
    ensures EmptyDialogue in r <==> v != Relaxed && item.dialogue.Some? && item.dialogue.value == []
    ensures forall x :: x in r ==> x == MissingDialogue || x == EmptyDialogue
  {
    if item.dialogue.None? then [MissingDialogue]
    else if v != Relaxed && |item.dialogue.value| == 0 then [EmptyDialogue]
    else []
  }

  /** The expression must not end, once trimmed, in a period or a comma
    * (strict and database validators). */
  function ExpressionPunctuationErrors(item: ContentItem, v: Variant): (r: seq<Violation>)
    ensures r != [] <==> v != Relaxed && item.expression != "" && EndsWithPunctuation(Trim(item.expression))
    ensures forall x :: x in r ==> x == ExpressionEndsWithPunctuation
  {
    if v != Relaxed && item.expression != "" && EndsWithPunctuation(Trim(item.expression))
    then [ExpressionEndsWithPunctuation] else []
  }

  function StructureErrors(item: ContentItem, v: Variant): seq<Violation> {
    MissingFieldErrors(item) + DialogueShapeErrors(item, v) + ExpressionPunctuationErrors(item, v)
  }

  /** Each absent top-level field is reported by its own violation. */
  lemma MissingFieldsExactly(item: ContentItem)
    ensures MissingExpression in MissingFieldErrors(item) <==> item.expression == ""
    ensures MissingMeaning in MissingFieldErrors(item) <==> item.meaning.None?
    ensures MissingContent in MissingFieldErrors(item) <==> item.content.None?
    ensures MissingTags in MissingFieldErrors(item) <==> item.tags.NoTags?
  {
  }

  /** A missing expression is reported by every validator. */
  lemma StructureMissingExpression(item: ContentItem, v: Variant)
    ensures MissingExpression in StructureErrors(item, v) <==> item.expression == ""
  {
    MissingFieldsExactly(item);
    assert MissingExpression !in DialogueShapeErrors(item, v);
    assert MissingExpression !in ExpressionPunctuationErrors(item, v);
  }

  /** A dialogue that is not a list is reported by every validator; an empty
    * one by the strict and database validators only. */
  lemma StructureDialogueShape(item: ContentItem, v: Variant)
    ensures MissingDialogue in StructureErrors(item, v) <==> item.dialogue.None?
    ensures EmptyDialogue in StructureErrors(item, v) <==>
      v != Relaxed && item.dialogue.Some? && item.dialogue.value == []
  {
    var a := MissingFieldErrors(item);
    assert MissingDialogue !in a && EmptyDialogue !in a;
    assert MissingDialogue !in ExpressionPunctuationErrors(item, v);
    assert EmptyDialogue !in ExpressionPunctuationErrors(item, v);
  }

  /** The expression-punctuation rule. */
  lemma StructureExpressionPunctuation(item: ContentItem, v: Variant)
    ensures ExpressionEndsWithPunctuation in StructureErrors(item, v) <==>
      v != Relaxed && item.expression != "" && EndsWithPunctuation(Trim(item.expression))
  {
    var a := MissingFieldErrors(item);
    assert ExpressionEndsWithPunctuation !in a;
    assert ExpressionEndsWithPunctuation !in DialogueShapeErrors(item, v);
    var e := ExpressionPunctuationErrors(item, v);
    if e != [] {
      assert e[0] in e;
    }
  }

  // --------------------------------------------------------------- tags

  /** Hangul, Kana, Cyrillic or Arabic: the scripts a tag and a Latin-language
    * text must not contain. */
  predicate HasForeignScript(t: string) {
    HasScript(t, Hangul) || HasScript(t, Kana) || HasScript(t, Cyrillic) || HasScript(t, Arabic)
  }

  /** The four checks on one tag. */
  function TagErrors(tag: string): seq<Violation> {
    (if '#' in tag then [TagContainsHash(tag)] else [])
    + (if tag != ToLower(tag) then [TagNotLowercase(tag)] else [])
    + (if !HasAsciiLetter(tag) then [TagWithoutLetters(tag)] else [])
    + (if HasForeignScript(tag) then [TagNotEnglishOnly(tag)] else [])
  }

  /** Each of the four tag rules is reported exactly when it is broken. */
  lemma TagErrorsExactly(tag: string)
    ensures TagContainsHash(tag) in TagErrors(tag) <==> '#' in tag
    ensures TagNotLowercase(tag) in TagErrors(tag) <==> tag != ToLower(tag)
    ensures TagWithoutLetters(tag) in TagErrors(tag) <==> !HasAsciiLetter(tag)
    ensures TagNotEnglishOnly(tag) in TagErrors(tag) <==> HasForeignScript(tag)
  {
    var a := if '#' in tag then [TagContainsHash(tag)] else [];
    var b := if tag != ToLower(tag) then [TagNotLowercase(tag)] else [];
    var c := if !HasAsciiLetter(tag) then [TagWithoutLetters(tag)] else [];
    var d := if HasForeignScript(tag) then [TagNotEnglishOnly(tag)] else [];
    assert TagErrors(tag) == a + b + c + d;
  }

  /** Nothing but the four tag rules is reported for a tag. */
  lemma TagErrorsOnly(tag: string)
    ensures TagErrors(tag) == [] <==>
      '#' !in tag && tag == ToLower(tag) && HasAsciiLetter(tag) && !HasForeignScript(tag)
  {
    var r := TagErrors(tag);
    TagErrorsExactly(tag);
    if r != [] {
      assert r[0] in r;
    }
  }

  /** Tags are checked only when they form a list. */
  function TagsErrors(tags: Tags): seq<Violation> {
    if tags.TagList? then FlatMap(tags.tags, TagErrors) else []
  }

  /** A tag list passes exactly when every tag is lowercase, has an ASCII
    * letter, and has neither '#' nor Hangul, Kana, Cyrillic or Arabic. */
  lemma TagsPassIff(tags: seq<string>)
    ensures TagsErrors(TagList(tags)) == [] <==>
      forall k :: 0 <= k < |tags| ==>
        '#' !in tags[k] && tags[k] == ToLower(tags[k]) && HasAsciiLetter(tags[k])
        && !HasScript(tags[k], Hangul) && !HasScript(tags[k], Kana)
        && !HasScript(tags[k], Cyrillic) && !HasScript(tags[k], Arabic)
  {
    FlatMapEmpty(tags, TagErrors);
    forall k | 0 <= k < |tags| ensures TagErrors(tags[k]) == [] <==>
        '#' !in tags[k] && tags[k] == ToLower(tags[k]) && HasAsciiLetter(tags[k])
        && !HasScript(tags[k], Hangul) && !HasScript(tags[k], Kana)
        && !HasScript(tags[k], Cyrillic) && !HasScript(tags[k], Arabic) {
      TagErrorsOnly(tags[k]);
    }
  }

  /** A tags value that is truthy but not a list is neither reported nor checked. */
  lemma TagsNotListUnchecked()
    ensures TagsErrors(TagsNotList) == [] && TagsErrors(NoTags) == []
  {
  }

  // ---------------------------------------------------- English leakage

  /** `checkEnglishInclusion(text, context, errors)`: at most one report,
    * listing the leaked words. */
  function LeakErrors(text: string, place: Place): seq<Violation> {
    var words := LeakedWords(text, AllowedEnglishTerms);
    if words == [] then [] else [EnglishLeakage(place, words)]
  }

  /** One report at most, present exactly when some word leaked, and it lists
    * the leaked words. */
  lemma LeakErrorsShape(text: string, place: Place)
    ensures var r := LeakErrors(text, place);
      |r| <= 1 && (r != [] <==> LeakedWords(text, AllowedEnglishTerms) != [])
      && forall x :: x in r ==> x == EnglishLeakage(place, LeakedWords(text, AllowedEnglishTerms))
  {
  }

  /** A leak report names a word exactly when the word is a scanned ASCII
    * word that is neither an allowed term (ignoring case) nor capital-initial. */
  lemma LeakReportExactly(text: string, place: Place, w: string)
    requires LeakErrors(text, place) != []
    ensures w in LeakErrors(text, place)[0].words <==>
      w in AsciiWords(text) && !IsAllowedTerm(w, AllowedEnglishTerms) && !IsUpper(w[0])
  {
    LeakErrorsShape(text, place);
    LeakedWordsExactly(text, AllowedEnglishTerms, w);
  }

  // ------------------------------------------------------------ meanings

  /** The meaning languages: the strict validator adds English. */
  function MeaningLangs(v: Variant): (r: seq<string>)
    ensures "en" in r <==> v == Strict
  {
    if v == Strict then TargetLangs + ["en"] else TargetLangs
  }

  /** The punctuation rules for one meaning text. */
  function PunctuationErrors(text: string, lang: string, v: Variant): seq<Violation> {
    match v
    case Strict =>
      (if Contains(ReplaceAll(text, "...", ""), ".") then [MeaningHasPeriod(lang)] else [])
      + (if ';' in text then [MeaningHasSemicolon(lang)] else [])
      + (if IdeographicFullStop in text then [MeaningHasIdeographicStop(lang)] else [])
    case Database =>
      var t := Trim(text);
      if EndsWith(t, ".") && !EndsWith(t, "...") then [MeaningEndsWithPeriod(lang)] else []
    case Relaxed => []
  }

  /** The strict rules look for periods outside ellipses, semicolons and
    * ideographic full stops; the database rule for a final period. */
  lemma PunctuationRules(text: string, lang: string, v: Variant)
    ensures var r := PunctuationErrors(text, lang, v);
      (MeaningHasPeriod(lang) in r <==> v == Strict && Contains(ReplaceAll(text, "...", ""), "."))
      && (MeaningHasSemicolon(lang) in r <==> v == Strict && ';' in text)
      && (MeaningHasIdeographicStop(lang) in r <==> v == Strict && IdeographicFullStop in text)
    ensures MeaningEndsWithPeriod(lang) in PunctuationErrors(text, lang, v) <==>
      v == Database && EndsWith(Trim(text), ".") && !EndsWith(Trim(text), "...")
  {
  }

  /** A punctuation report is about the language it was found in. */
  lemma PunctuationErrorsAbout(text: string, lang: string, v: Variant, x: Violation)
    requires x in PunctuationErrors(text, lang, v)
    ensures MeaningLangOf(x) == Some(lang)
    ensures x.MeaningHasPeriod? || x.MeaningHasSemicolon? || x.MeaningHasIdeographicStop? || x.MeaningEndsWithPeriod?
  {
  }

  /** The foreign-script rules: no Kana or Han in Korean, no Hangul in Japanese. */
  function MeaningScriptErrors(text: string, lang: string): (r: seq<Violation>)
    ensures forall x :: x in r ==> x == MeaningForeignScript(lang) || x == MeaningHangul(lang)
  {
    (if lang == "ko" && (HasScript(text, Kana) || HasScript(text, Han)) then [MeaningForeignScript(lang)] else [])
    + (if lang == "ja" && HasScript(text, Hangul) then [MeaningHangul(lang)] else [])
  }

  /** The English-leak check, for the five non-Latin languages only. */
  function MeaningLeakErrors(text: string, lang: string): seq<Violation> {
    if lang in NonLatinLangs then LeakErrors(text, MeaningOf(lang)) else []
  }

  /** Korean and Japanese meanings are checked for each other's scripts. */
  lemma MeaningScriptRules(text: string, lang: string)
    ensures MeaningForeignScript(lang) in MeaningScriptErrors(text, lang) <==>
      lang == "ko" && (HasScript(text, Kana) || HasScript(text, Han))
    ensures MeaningHangul(lang) in MeaningScriptErrors(text, lang) <==> lang == "ja" && HasScript(text, Hangul)
  {
  }

  /** Only the five non-Latin meanings are scanned for English words. */
  lemma MeaningLeakRule(text: string, lang: string)
    ensures MeaningLeakErrors(text, lang) != [] <==>
      lang in NonLatinLangs && LeakedWords(text, AllowedEnglishTerms) != []
    ensures forall x :: x in MeaningLeakErrors(text, lang) ==>
      x == EnglishLeakage(MeaningOf(lang), LeakedWords(text, AllowedEnglishTerms))
  {
    LeakErrorsShape(text, MeaningOf(lang));
  }

  /** The checks on a present meaning text. */
  function MeaningTextErrors(text: string, lang: string, v: Variant): seq<Violation> {
    MeaningScriptErrors(text, lang) + MeaningLeakErrors(text, lang) + PunctuationErrors(text, lang, v)
  }

  /** The checks on `item.meaning[lang]`. */
  function MeaningLangErrors(m: map<string, string>, lang: string, v: Variant): seq<Violation> {
    var text := Lookup(m, lang);
    if text == "" then (if v == Relaxed then [] else [MeaningMissing(lang)])
    else MeaningTextErrors(text, lang, v)
  }

  function MeaningErrors(meaning: Option<map<string, string>>, v: Variant): seq<Violation> {
    if meaning.None? then []
    else FlatMap(MeaningLangs(v), lang => MeaningLangErrors(meaning.value, lang, v))
  }

  /** The language a meaning violation is about. */
  function MeaningLangOf(x: Violation): Option<string> {
    match x
    case MeaningMissing(l) => Some(l)
    case MeaningForeignScript(l) => Some(l)
    case MeaningHangul(l) => Some(l)
    case EnglishLeakage(MeaningOf(l), _) => Some(l)
    case MeaningHasPeriod(l) => Some(l)
    case MeaningEndsWithPeriod(l) => Some(l)
    case MeaningHasSemicolon(l) => Some(l)
    case MeaningHasIdeographicStop(l) => Some(l)
    case _ => None
  }

  /** Every violation found in `meaning[lang]` is about `lang`. */
  lemma MeaningLangErrorsAbout(m: map<string, string>, lang: string, v: Variant, x: Violation)
    requires x in MeaningLangErrors(m, lang, v)
    ensures MeaningLangOf(x) == Some(lang)
  {
    var text := Lookup(m, lang);
    if text != "" {
      MeaningTextErrorsAbout(text, lang, v, x);
    }
  }

  lemma MeaningTextErrorsAbout(text: string, lang: string, v: Variant, x: Violation)
    requires x in MeaningTextErrors(text, lang, v)
    ensures MeaningLangOf(x) == Some(lang)
  {
    var a := MeaningScriptErrors(text, lang);
    var b := MeaningLeakErrors(text, lang);
    var c := PunctuationErrors(text, lang, v);
    assert x in a || x in b || x in c;
    if x in a {
      MeaningScriptAbout(lang, x);
    } else if x in b {
      MeaningLeakRule(text, lang);
    } else {
      PunctuationErrorsAbout(text, lang, v, x);
    }
  }

  lemma MeaningScriptAbout(lang: string, x: Violation)
    requires x == MeaningForeignScript(lang) || x == MeaningHangul(lang)
    ensures MeaningLangOf(x) == Some(lang)
  {
  }

  /** Every meaning violation is about one of the variant's meaning languages;
    * in particular the database and relaxed validators never report on `en`. */
  lemma MeaningErrorsLangs(meaning: Option<map<string, string>>, v: Variant, x: Violation)
    requires x in MeaningErrors(meaning, v)
    ensures MeaningLangOf(x).Some? && MeaningLangOf(x).value in MeaningLangs(v)
    ensures v != Strict ==> MeaningLangOf(x) != Some("en")
  {
    var f := lang => MeaningLangErrors(meaning.value, lang, v);
    FlatMapMember(MeaningLangs(v), f, x);
    var i :| 0 <= i < |MeaningLangs(v)| && x in f(MeaningLangs(v)[i]);
    MeaningLangErrorsAbout(meaning.value, MeaningLangs(v)[i], v, x);
  }

  /** The punctuation violations of a meaning come from the punctuation rules alone. */
  lemma MeaningPunctuationOnly(text: string, lang: string, v: Variant, x: Violation)
    requires x.MeaningHasPeriod? || x.MeaningHasSemicolon? || x.MeaningHasIdeographicStop? || x.MeaningEndsWithPeriod?
    ensures x in MeaningTextErrors(text, lang, v) <==> x in PunctuationErrors(text, lang, v)
  {
    MeaningLeakRule(text, lang);
  }

  /** The strict period rule: any `.` left once every `...` is deleted;
    * and no `;` or `。` at all. */
  lemma StrictMeaningPeriod(m: map<string, string>, lang: string)
    ensures MeaningHasPeriod(lang) in MeaningLangErrors(m, lang, Strict) <==>
      Lookup(m, lang) != "" && Contains(ReplaceAll(Lookup(m, lang), "...", ""), ".")
    ensures MeaningHasSemicolon(lang) in MeaningLangErrors(m, lang, Strict) <==>
      Lookup(m, lang) != "" && ';' in Lookup(m, lang)
    ensures MeaningHasIdeographicStop(lang) in MeaningLangErrors(m, lang, Strict) <==>
      Lookup(m, lang) != "" && IdeographicFullStop in Lookup(m, lang)
  {
    var text := Lookup(m, lang);
    PunctuationRules(text, lang, Strict);
    MeaningPunctuationOnly(text, lang, Strict, MeaningHasPeriod(lang));
    MeaningPunctuationOnly(text, lang, Strict, MeaningHasSemicolon(lang));
    MeaningPunctuationOnly(text, lang, Strict, MeaningHasIdeographicStop(lang));
  }

  /** A meaning whose only periods form one ellipsis passes the strict period rule. */
  lemma EllipsisOnlyPasses(m: map<string, string>, lang: string)
    requires Lookup(m, lang) == "..."
    ensures MeaningHasPeriod(lang) !in MeaningLangErrors(m, lang, Strict)
  {
    StrictMeaningPeriod(m, lang);
    var text := Lookup(m, lang);
    assert IsAt(text, "...", 0);
    assert text[3..] == "";
    assert ReplaceAll(text, "...", "") == "";
  }

  /** The database period rule looks only at the trimmed end: a period in mid
    * text passes, a final period that is not part of `...` does not. */
  lemma DatabaseMeaningPeriod(m: map<string, string>, lang: string)
    ensures MeaningEndsWithPeriod(lang) in MeaningLangErrors(m, lang, Database) <==>
      Lookup(m, lang) != ""
      && EndsWith(Trim(Lookup(m, lang)), ".") && !EndsWith(Trim(Lookup(m, lang)), "...")
    ensures MeaningHasPeriod(lang) !in MeaningLangErrors(m, lang, Database)
  {
    var text := Lookup(m, lang);
    PunctuationRules(text, lang, Database);
    MeaningPunctuationOnly(text, lang, Database, MeaningEndsWithPeriod(lang));
    MeaningPunctuationOnly(text, lang, Database, MeaningHasPeriod(lang));
  }

  /** A missing meaning is reported by the strict and database validators and
    * skipped by the relaxed one. */
  lemma MissingMeaningRule(m: map<string, string>, lang: string, v: Variant)
    requires Lookup(m, lang) == ""
    ensures MeaningLangErrors(m, lang, v) == (if v == Relaxed then [] else [MeaningMissing(lang)])
  {
  }

  // ------------------------------------------------------------- content

  /** `/^C\.\s/` at index `i`: the label `c`, a period, a white-space character. */
  predicate LabelAt(q: string, i: int, c: char) {
    0 <= i && i + 2 < |q| && q[i] == c && q[i + 1] == '.' && IsSpace(q[i + 2])
  }

  /** `/\nC\.\s/.test(q)`. */
  predicate LabelAfterNewline(q: string, c: char) {
    exists i :: 0 <= i < |q| && q[i] == '\n' && LabelAt(q, i + 1, c)
  }

  /** The labels the question lacks, in the order A, B, C. */
  function MissingLabels(q: string): seq<char> {
    (if !(LabelAfterNewline(q, 'A') || LabelAt(q, 0, 'A')) then ['A'] else [])
    + (if !LabelAfterNewline(q, 'B') then ['B'] else [])
    + (if !LabelAfterNewline(q, 'C') then ['C'] else [])
  }

  /** A label is listed exactly when its test fails. */
  lemma MissingLabelsExactly(q: string)
    ensures 'A' in MissingLabels(q) <==> !(LabelAfterNewline(q, 'A') || LabelAt(q, 0, 'A'))
    ensures 'B' in MissingLabels(q) <==> !LabelAfterNewline(q, 'B')
    ensures 'C' in MissingLabels(q) <==> !LabelAfterNewline(q, 'C')
  {
  }

  /** The label check on a present question. */
  function LabelErrors(lang: string, question: string): seq<Violation> {
    if question != "" && MissingLabels(question) != []
    then [QuestionMissingLabels(lang, MissingLabels(question))] else []
  }

  /** The checks on a present quiz object. */
  function QuizErrors(lang: string, q: Quiz): seq<Violation> {
    (if q.question == "" then [QuestionMissing(lang)] else [])
    + (if q.answer == "" then [AnswerMissing(lang)] else [])
    + (if q.hasOptions then [QuizHasOptionsField(lang)] else [])
    + LabelErrors(lang, q.question)
  }

  /** The structural checks of one content entry and its quiz. */
  function QuizStructureErrors(e: ContentEntry, lang: string): seq<Violation> {
    (if e.situation == "" then [SituationMissing(lang)] else [])
    + (if e.tip == "" then [TipMissing(lang)] else [])
    + (match e.quiz
       case None => [QuizMissing(lang)]
       case Some(q) => QuizErrors(lang, q))
  }

  /** A question is reported for its labels exactly when some label is
    * missing, and the report lists the missing labels. */
  lemma LabelsRule(e: ContentEntry, lang: string, labels: seq<char>)
    requires e.quiz.Some? && e.quiz.value.question != ""
    ensures QuestionMissingLabels(lang, labels) in QuizStructureErrors(e, lang) <==>
      labels == MissingLabels(e.quiz.value.question) && labels != []
  {
    var quiz := e.quiz.value;
    var q := quiz.question;
    var pre := (if e.situation == "" then [SituationMissing(lang)] else [])
      + (if e.tip == "" then [TipMissing(lang)] else []);
    var quizPre := (if q == "" then [QuestionMissing(lang)] else [])
      + (if quiz.answer == "" then [AnswerMissing(lang)] else [])
      + (if quiz.hasOptions then [QuizHasOptionsField(lang)] else []);
    assert QuizStructureErrors(e, lang) == pre + (quizPre + LabelErrors(lang, q));
    assert QuestionMissingLabels(lang, labels) !in pre;
    assert QuestionMissingLabels(lang, labels) !in quizPre;
  }

  /** No label is missing exactly when `A. ` (at the start or after a
    * newline), `\nB. ` and `\nC. ` all occur. */
  lemma LabelsPresent(q: string)
    ensures MissingLabels(q) == [] <==>
      (LabelAfterNewline(q, 'A') || LabelAt(q, 0, 'A')) && LabelAfterNewline(q, 'B') && LabelAfterNewline(q, 'C')
  {
    MissingLabelsExactly(q);
    var r := MissingLabels(q);
    if r != [] {
      assert r[0] in r;
    }
  }

  /** The texts whose scripts are checked: situation, tip and question, and
    * for the relaxed validator also the quiz fields A, B and C; empty ones
    * are dropped. */
  function Fields(e: ContentEntry, v: Variant): seq<string> {
    var raw := [e.situation, e.tip] +
      (match e.quiz
       case None => ["", "", "", ""]
       case Some(q) => [q.question] + (if v == Relaxed then [q.a, q.b, q.c] else []));
    Filter(raw, NonEmpty)
  }

  predicate NonEmpty(t: string) { t != "" }

  /** The script check on one field: at most one report, chosen by language. */
  function FieldScriptErrors(lang: string, t: string): (r: seq<Violation>)
    ensures |r| <= 1
  {
    if lang == "ko" && HasScript(t, Kana) then [ContentKana(lang)]
    else if lang == "ja" && HasScript(t, Hangul) then [ContentHangul(lang)]
    else if lang in LatinLangs && HasForeignScript(t) then [ContentForeignScript(lang)]
    else []
  }

  function FieldsErrors(lang: string, fields: seq<string>): seq<Violation> {
    FlatMap(fields, t => FieldScriptErrors(lang, t))
  }

  /** A quiz answer that is present must be exactly A, B or C. */
  function AnswerErrors(e: ContentEntry, lang: string): seq<Violation> {
    if e.quiz.Some? && e.quiz.value.answer != "" && e.quiz.value.answer !in QuizLabels
    then [AnswerNotLabel(lang, e.quiz.value.answer)] else []
  }

  /** The answers that pass are exactly "A", "B" and "C" (and an absent one). */
  lemma AnswerLabels(e: ContentEntry, lang: string)
    requires e.quiz.Some? && e.quiz.value.answer != ""
    ensures AnswerErrors(e, lang) == [] <==>
      e.quiz.value.answer == "A" || e.quiz.value.answer == "B" || e.quiz.value.answer == "C"
  {
  }

  /** A line that, trimmed, starts with `A.`, `B.` or `C.`. */
  predicate IsLabelLine(t: string) {
    StartsWith(t, "A.") || StartsWith(t, "B.") || StartsWith(t, "C.")
  }

  /** `trimmed.substring(2).trim()` for a label line, nothing for any other. */
  function OptionOf(line: string): (r: seq<string>)
    ensures |r| <= 1
    ensures r != [] <==> IsLabelLine(Trim(line))
  {
    var t := Trim(line);
    if IsLabelLine(t) then [Trim(t[2..])] else []
  }

  function OptionTexts(lines: seq<string>): seq<string> {
    FlatMap(lines, OptionOf)
  }

  /** `isTarget`: the option is written in the language's own script. */
  predicate IsTargetScript(lang: string, s: string) {
    if lang == "ko" then HasScript(s, Hangul)
    else if lang == "ja" then HasScript(s, Kana) || HasScript(s, Han)
    else if lang == "zh" then HasScript(s, Han)
    else if lang == "ru" then HasScript(s, Cyrillic)
    else if lang == "ar" then HasScript(s, Arabic)
    else false
  }

  /** How many of the options are in the target script. */
  function TargetCount(lang: string, opts: seq<string>): (n: nat)
    ensures n <= |opts|
  {
    FilterMember(opts, o => IsTargetScript(lang, o), "");
    |Filter(opts, o => IsTargetScript(lang, o))|
  }

  /** `/^A\./.test(line.trim())`. */
  predicate IsALine(line: string) {
    StartsWith(Trim(line), "A.")
  }

  /** Index of the first line that, trimmed, starts with `A.`, or the number
    * of lines. */
  function FirstALine(lines: seq<string>): (r: nat)
    ensures r <= |lines|
    ensures forall k :: 0 <= k < r ==> !IsALine(lines[k])
    ensures r < |lines| ==> IsALine(lines[r])
  {
    if lines == [] then 0
    else if IsALine(lines[0]) then 0
    else 1 + FirstALine(lines[1..])
  }

  /** A line before the first `A.` line that is not one itself is not the last. */
  lemma BeforeFirstA(lines: seq<string>, i: nat)
    requires i <= FirstALine(lines) && i < |lines| && !IsALine(lines[i])
    ensures i < FirstALine(lines)
  {
  }

  /** A scan that stops at an `A.` line or the end, without passing the first
    * `A.` line, stopped at the first one. */
  lemma StopsAtFirstA(lines: seq<string>, i: nat)
    requires i <= FirstALine(lines)
    requires i == |lines| || IsALine(lines[i])
    ensures i == FirstALine(lines)
  {
  }

  /** `questionBody += line + " "`. */
  function Spaced(line: string): string {
    line + " "
  }

  /** The lines before the first option line, each followed by a space. */
  function QuestionBody(lines: seq<string>): string {
    FlatMap(lines[..FirstALine(lines)], Spaced)
  }

  lemma AllowedNonEmpty()
    ensures forall k :: 0 <= k < |AllowedNames| ==> |AllowedNames[k]| > 0
    ensures forall k :: 0 <= k < |AllowedEnglishTerms| ==> |AllowedEnglishTerms[k]| > 0
  {
  }

  /** The question body with the allowed names, then the allowed terms,
    * removed ignoring case. */
  function CheckBody(body: string): string {
    AllowedNonEmpty();
    RemoveEachIgnoreCase(RemoveEachIgnoreCase(body, AllowedNames), AllowedEnglishTerms)
  }

  /** The strict validator's pattern rule: English in the question calls for
    * options in the target script, none calls for English options. */
  function PatternErrors(lang: string, lines: seq<string>, cnt: nat): seq<Violation> {
    if HasAsciiWord(CheckBody(QuestionBody(lines))) then
      (if cnt != 3 then [PatternNeedsTargetOptions(lang)] else [])
    else
      (if cnt != 0 then [PatternNeedsEnglishOptions(lang)] else [])
  }

  /** The option-consistency rules on a quiz question, for the five
    * non-Latin languages. */
  function OptionErrors(lang: string, question: string, v: Variant): seq<Violation> {
    var lines := Split(question, "\n");
    var opts := OptionTexts(lines);
    if |opts| != 3 then []
    else
      var cnt := TargetCount(lang, opts);
      (if cnt != 0 && cnt != 3 then [OptionsMixedScripts(lang)] else [])
      + (if v == Strict then PatternErrors(lang, lines, cnt) else [])
  }

  /** With three options, the database validator accepts exactly the
    * questions whose options are all in the target script or none are. */
  lemma DatabaseOptionsRule(lang: string, question: string)
    ensures var opts := OptionTexts(Split(question, "\n"));
      OptionErrors(lang, question, Database) == [] <==>
        |opts| != 3 || TargetCount(lang, opts) == 0 || TargetCount(lang, opts) == 3
  {
  }

  /** With three options, the strict validator accepts exactly: all options
    * in the target script when the question body (names and allowed terms
    * removed) has a run of two ASCII letters, and no option in it otherwise. */
  lemma StrictOptionsRule(lang: string, question: string)
    ensures var lines := Split(question, "\n");
      var opts := OptionTexts(lines);
      var cnt := TargetCount(lang, opts);
      |opts| == 3 ==>
        (OptionErrors(lang, question, Strict) == [] <==>
          (HasAsciiWord(CheckBody(QuestionBody(lines))) && cnt == 3)
          || (!HasAsciiWord(CheckBody(QuestionBody(lines))) && cnt == 0))
  {
  }

  /** The checks of `item.content[lang]`. */
  function ContentLangErrors(c: map<string, ContentEntry>, lang: string, v: Variant): seq<Violation> {
    if lang !in c then (if v == Relaxed then [] else [ContentEntryMissing(lang)])
    else
      var e := c[lang];
      (if v == Relaxed then [] else QuizStructureErrors(e, lang))
      + FieldsErrors(lang, Fields(e, v))
      + AnswerErrors(e, lang)
      + (if v != Relaxed && lang in NonLatinLangs && e.quiz.Some? && e.quiz.value.question != ""
         then OptionErrors(lang, e.quiz.value.question, v) else [])
  }

  function ContentErrors(content: Option<map<string, ContentEntry>>, v: Variant): seq<Violation> {
    if content.None? then []
    else FlatMap(TargetLangs, lang => ContentLangErrors(content.value, lang, v))
  }

  /** The relaxed validator skips a missing content entry. */
  lemma RelaxedSkipsMissingContent(c: map<string, ContentEntry>, lang: string)
    requires lang !in c
    ensures ContentLangErrors(c, lang, Relaxed) == []
  {
  }

  /** The relaxed validator checks the quiz fields A, B and C for foreign
    * scripts along with situation, tip and question. */
  lemma RelaxedChecksQuizFields(e: ContentEntry, lang: string)
    requires lang in LatinLangs && e.quiz.Some?
    ensures var q := e.quiz.value;
      ContentForeignScript(lang) in FieldsErrors(lang, Fields(e, Relaxed)) <==>
        exists t :: t in [e.situation, e.tip, q.question, q.a, q.b, q.c] && HasForeignScript(t)
  {
    var q := e.quiz.value;
    var raw := [e.situation, e.tip] + ([q.question] + [q.a, q.b, q.c]);
    var fields := Fields(e, Relaxed);
    assert fields == Filter(raw, NonEmpty);
    assert raw == [e.situation, e.tip, q.question, q.a, q.b, q.c];
    var f := t => FieldScriptErrors(lang, t);
    FlatMapMember(fields, f, ContentForeignScript(lang));
    if exists t :: t in raw && HasForeignScript(t) {
      var t :| t in raw && HasForeignScript(t);
      assert t != "";
      FilterMember(raw, NonEmpty, t);
      var i :| 0 <= i < |fields| && fields[i] == t;
      assert f(fields[i]) == [ContentForeignScript(lang)];
    }
    if ContentForeignScript(lang) in FlatMap(fields, f) {
      var i :| 0 <= i < |fields| && ContentForeignScript(lang) in f(fields[i]);
      FilterMember(raw, NonEmpty, fields[i]);
    }
  }

  // ------------------------------------------------------------ dialogue

  /** `**` or `__` in a translation. */
  function MarkdownErrors(idx: nat, lang: string, text: string): seq<Violation> {
    if Contains(text, "**") || Contains(text, "__") then [TranslationMarkdown(idx, lang, text)] else []
  }

  /** English leakage: word by word for the non-Latin languages, the whole
    * expression (ignoring case, longer than four characters) for es/fr/de. */
  function TranslationLeakErrors(expression: string, idx: nat, lang: string, text: string): seq<Violation> {
    if lang in NonLatinLangs then LeakErrors(text, TranslationOf(idx, lang))
    else if expression != "" && Contains(ToLower(text), ToLower(expression)) && |expression| > 4
    then [ExpressionLeak(idx, lang, expression)]
    else []
  }

  function TranslationScriptErrors(idx: nat, lang: string, text: string): seq<Violation> {
    (if lang == "ko" && (HasScript(text, Kana) || HasScript(text, Han)) then [TranslationForeignScript(idx, lang)] else [])
    + (if lang == "ja" && HasScript(text, Hangul) then [TranslationHangul(idx, lang)] else [])
  }

  /** The checks on `translations[lang]` of turn `idx`; an absent one is skipped. */
  function TranslationErrors(expression: string, idx: nat, lang: string, text: string): seq<Violation> {
    if text == "" then []
    else
      MarkdownErrors(idx, lang, text)
      + TranslationLeakErrors(expression, idx, lang, text)
      + TranslationScriptErrors(idx, lang, text)
  }

  /** Markdown bold or underline markers are rejected in every translation. */
  lemma MarkdownRule(expression: string, idx: nat, lang: string, text: string)
    ensures TranslationMarkdown(idx, lang, text) in TranslationErrors(expression, idx, lang, text) <==>
      text != "" && (Contains(text, "**") || Contains(text, "__"))
  {
    var r := MarkdownErrors(idx, lang, text);
    if r != [] {
      assert r[0] in r;
    }
  }

  /** The whole English expression inside an es/fr/de translation (ignoring
    * case) is reported only when the expression is longer than four characters. */
  lemma ExpressionLeakRule(expression: string, idx: nat, lang: string, text: string)
    requires lang in LatinLangs
    ensures ExpressionLeak(idx, lang, expression) in TranslationErrors(expression, idx, lang, text) <==>
      text != "" && expression != "" && Contains(ToLower(text), ToLower(expression)) && |expression| > 4
  {
    assert lang !in NonLatinLangs;
    var v := ExpressionLeak(idx, lang, expression);
    if text != "" {
      var md := MarkdownErrors(idx, lang, text);
      var leak := TranslationLeakErrors(expression, idx, lang, text);
      var sc := TranslationScriptErrors(idx, lang, text);
      assert v !in md && v !in sc;
      assert TranslationErrors(expression, idx, lang, text) == md + leak + sc;
      assert v in leak <==> expression != "" && Contains(ToLower(text), ToLower(expression)) && |expression| > 4;
    }
  }

  /** The translation checks over the languages `langs`, in order. */
  function TranslationsOf(expression: string, idx: nat, tr: map<string, string>, langs: seq<string>): seq<Violation> {
    FlatMap(langs, lang => TranslationErrors(expression, idx, lang, Lookup(tr, lang)))
  }

  lemma TranslationsOfSnoc(expression: string, idx: nat, tr: map<string, string>, langs: seq<string>, lang: string)
    ensures TranslationsOf(expression, idx, tr, langs + [lang])
      == TranslationsOf(expression, idx, tr, langs) + TranslationErrors(expression, idx, lang, Lookup(tr, lang))
  {
    FlatMapSnoc(langs, lang, lang => TranslationErrors(expression, idx, lang, Lookup(tr, lang)));
  }

  function TranslationsErrors(expression: string, idx: nat, tr: map<string, string>): seq<Violation> {
    TranslationsOf(expression, idx, tr, TargetLangs)
  }

  /** The checks on dialogue turn `idx`. */
  function TurnErrors(expression: string, idx: nat, t: Turn, v: Variant): seq<Violation> {
    (if t.en != "" && (HasScript(t.en, Hangul) || HasScript(t.en, Kana)) then [DialogueEnNotEnglish(idx)] else [])
    + (if t.translations.Some? then TranslationsErrors(expression, idx, t.translations.value) else [])
    + (if v == Strict && t.role != "" && t.en != "" then GenderErrors(idx, t.role, AddressedAsWritten(t.en)) else [])
  }

  /** The turns of a dialogue, each with its index. */
  function TurnsErrors(expression: string, d: seq<Turn>, v: Variant): seq<Violation>
    decreases |d|
  {
    if d == [] then []
    else TurnsErrors(expression, d[..|d| - 1], v) + TurnErrors(expression, |d| - 1, d[|d| - 1], v)
  }

  lemma TurnsErrorsSnoc(expression: string, d: seq<Turn>, idx: nat, v: Variant)
    requires idx < |d|
    ensures TurnsErrors(expression, d[..idx + 1], v)
      == TurnsErrors(expression, d[..idx], v) + TurnErrors(expression, idx, d[idx], v)
  {
    assert d[..idx + 1][..idx] == d[..idx];
  }

  function DialogueErrors(item: ContentItem, v: Variant): seq<Violation> {
    if item.dialogue.None? then []
    else
      var d := item.dialogue.value;
      (if v != Relaxed && (|d| < 2 || |d| > 4) then [DialogueLength(|d|)] else [])
      + TurnsErrors(item.expression, d, v)
  }

  /** The dialogue turn a violation is about. */
  function TurnOf(x: Violation): Option<nat> {
    match x
    case DialogueEnNotEnglish(i) => Some(i)
    case TranslationMarkdown(i, _, _) => Some(i)
    case EnglishLeakage(TranslationOf(i, _), _) => Some(i)
    case ExpressionLeak(i, _, _) => Some(i)
    case TranslationForeignScript(i, _) => Some(i)
    case TranslationHangul(i, _) => Some(i)
    case FemaleAddressesFemale(i, _) => Some(i)
    case MaleAddressesMale(i, _) => Some(i)
    case _ => None
  }

  /** Every violation found in turn `idx` names that turn. */
  lemma TurnErrorsAbout(expression: string, idx: nat, t: Turn, v: Variant, x: Violation)
    requires x in TurnErrors(expression, idx, t, v)
    ensures TurnOf(x) == Some(idx)
  {
    var a := if t.en != "" && (HasScript(t.en, Hangul) || HasScript(t.en, Kana)) then [DialogueEnNotEnglish(idx)] else [];
    var b := if t.translations.Some? then TranslationsErrors(expression, idx, t.translations.value) else [];
    var c := if v == Strict && t.role != "" && t.en != "" then GenderErrors(idx, t.role, AddressedAsWritten(t.en)) else [];
    assert TurnErrors(expression, idx, t, v) == a + b + c;
    assert x in a || x in b || x in c;
    if x in a {
      EnLineAbout(idx, x);
    } else if x in b {
      TranslationsErrorsAbout(expression, idx, t.translations.value, x);
    } else {
      GenderErrorsAbout(idx, t.role, AddressedAsWritten(t.en), x);
    }
  }

  lemma EnLineAbout(idx: nat, x: Violation)
    requires x in [DialogueEnNotEnglish(idx)]
    ensures TurnOf(x) == Some(idx)
  {
  }

  /** A gender violation names the turn it was found in. */
  lemma GenderErrorsAbout(idx: nat, role: string, names: seq<string>, x: Violation)
    requires x in GenderErrors(idx, role, names)
    ensures TurnOf(x) == Some(idx)
  {
    GenderErrorsExactly(idx, role, names, x);
  }

  lemma TranslationsErrorsAbout(expression: string, idx: nat, tr: map<string, string>, x: Violation)
    requires x in TranslationsErrors(expression, idx, tr)
    ensures TurnOf(x) == Some(idx)
  {
    var f := lang => TranslationErrors(expression, idx, lang, Lookup(tr, lang));
    FlatMapMember(TargetLangs, f, x);
    var i :| 0 <= i < |TargetLangs| && x in f(TargetLangs[i]);
    TranslationErrorsAbout(expression, idx, TargetLangs[i], Lookup(tr, TargetLangs[i]), x);
  }

  lemma TranslationErrorsAbout(expression: string, idx: nat, lang: string, text: string, x: Violation)
    requires x in TranslationErrors(expression, idx, lang, text)
    ensures TurnOf(x) == Some(idx)
  {
    if text != "" {
      var a := MarkdownErrors(idx, lang, text);
      var b := TranslationLeakErrors(expression, idx, lang, text);
      var c := TranslationScriptErrors(idx, lang, text);
      assert TranslationErrors(expression, idx, lang, text) == a + b + c;
      assert x in a || x in b || x in c;
      if x in a {
        assert x == TranslationMarkdown(idx, lang, text);
      } else if x in b {
        TranslationLeakAbout(expression, idx, lang, text, x);
      } else {
        TranslationScriptAbout(idx, lang, text, x);
      }
    }
  }

  lemma TranslationScriptAbout(idx: nat, lang: string, text: string, x: Violation)
    requires x in TranslationScriptErrors(idx, lang, text)
    ensures TurnOf(x) == Some(idx)
  {
  }

  lemma TranslationLeakAbout(expression: string, idx: nat, lang: string, text: string, x: Violation)
    requires x in TranslationLeakErrors(expression, idx, lang, text)
    ensures TurnOf(x) == Some(idx)
  {
    if lang in NonLatinLangs {
      LeakErrorsShape(text, TranslationOf(idx, lang));
    }
  }

  /** Every violation of the turns names a turn of the dialogue. */
  lemma {:induction false} TurnsErrorsAbout(expression: string, d: seq<Turn>, v: Variant, x: Violation)
    requires x in TurnsErrors(expression, d, v)
    ensures TurnOf(x).Some? && TurnOf(x).value < |d|
    decreases |d|
  {
    var init := d[..|d| - 1];
    if x in TurnsErrors(expression, init, v) {
      TurnsErrorsAbout(expression, init, v, x);
    } else {
      TurnErrorsAbout(expression, |d| - 1, d[|d| - 1], v, x);
    }
  }

  /** The dialogue-length rule: the strict and database validators report a
    * dialogue of fewer than two or more than four turns; the relaxed one
    * has no such rule. */
  lemma DialogueLengthRule(item: ContentItem, v: Variant, n: nat)
    ensures DialogueLength(n) in DialogueErrors(item, v) <==>
      v != Relaxed && item.dialogue.Some? && n == |item.dialogue.value|
      && (n < 2 || n > 4)
  {
    if item.dialogue.Some? && DialogueLength(n) in TurnsErrors(item.expression, item.dialogue.value, v) {
      TurnsErrorsAbout(item.expression, item.dialogue.value, v, DialogueLength(n));
    }
  }

  // ------------------------------------------------------------ the item

  /** Every violation of the record, in the order the validator pushes them. */
  function ItemErrors(item: ContentItem, v: Variant): seq<Violation> {
    StructureErrors(item, v)
    + TagsErrors(item.tags)
    + MeaningErrors(item.meaning, v)
    + ContentErrors(item.content, v)
    + DialogueErrors(item, v)
  }

  /** The result `{valid, errors}`. */
  function Validate(item: ContentItem, v: Variant): (r: ValidationResult)
    ensures r.valid <==> r.errors == []
    ensures r.errors == ItemErrors(item, v)
  {
    var errors := ItemErrors(item, v);
    ValidationResult(errors == [], errors)
  }

  /** Every rule that fires in a section makes the whole record invalid. */
  lemma SectionMakesInvalid(item: ContentItem, v: Variant, x: Violation)
    requires x in StructureErrors(item, v) || x in TagsErrors(item.tags)
          || x in MeaningErrors(item.meaning, v) || x in ContentErrors(item.content, v)
          || x in DialogueErrors(item, v)
    ensures x in ItemErrors(item, v) && !Validate(item, v).valid
  {
  }

  /** A record whose expression ends, once trimmed, in a period or a comma is
    * rejected by the strict and database validators. */
  lemma ExpressionPunctuationRejected(item: ContentItem, v: Variant)
    requires v != Relaxed && item.expression != "" && EndsWithPunctuation(Trim(item.expression))
    ensures ExpressionEndsWithPunctuation in ItemErrors(item, v)
    ensures !Validate(item, v).valid
  {
    StructureExpressionPunctuation(item, v);
  }
}
