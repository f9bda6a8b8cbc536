/**
 * The expression record the content validators inspect, and the violations
 * they report.
 *
 * The record is the validators' typed view of the generated JSON: a string
 * field holds `""` when the JSON value is absent or falsy, and an object
 * field is `None` when it is absent or falsy.  Every violation of the
 * sources' `errors.push(...)` calls is one constructor carrying the values
 * its message interpolates, so that "which rule fired, where" is kept and the
 * message wording is not.
 */
module ContentModel {
  import opened Common

  datatype Quiz = Quiz(
    question: string,
    answer: string,
    /** `quiz.options` is present and truthy */
    hasOptions: bool,
    /** `quiz.A`, `quiz.B`, `quiz.C` (read only by the relaxed validator) */
    a: string, b: string, c: string)

  datatype ContentEntry = ContentEntry(situation: string, tip: string, quiz: Option<Quiz>)

  datatype Turn = Turn(role: string, en: string, translations: Option<map<string, string>>)

  /** `item.tags`: falsy, truthy but not an array, or an array of strings. */
  datatype Tags = NoTags | TagsNotList | TagList(tags: seq<string>)

  datatype ContentItem = ContentItem(
    expression: string,
    meaning: Option<map<string, string>>,
    content: Option<map<string, ContentEntry>>,
    tags: Tags,
    /** `None` when the dialogue is falsy or not an array */
    dialogue: Option<seq<Turn>>)

  /** Where an English-leak report points. */
  datatype Place = MeaningOf(lang: string) | TranslationOf(index: nat, lang: string)

  datatype Violation =
    // top-level structure
    | MissingExpression | MissingMeaning | MissingContent | MissingTags
    | MissingDialogue | EmptyDialogue
    | ExpressionEndsWithPunctuation
    // tags
    | TagContainsHash(tag: string) | TagNotLowercase(tag: string)
    | TagWithoutLetters(tag: string) | TagNotEnglishOnly(tag: string)
    // meanings
    | MeaningMissing(lang: string)
    | MeaningForeignScript(lang: string)
    | MeaningHangul(lang: string)
    | EnglishLeakage(place: Place, words: seq<string>)
    | MeaningHasPeriod(lang: string)
    | MeaningEndsWithPeriod(lang: string)
    | MeaningHasSemicolon(lang: string)
    | MeaningHasIdeographicStop(lang: string)
    // content
    | ContentEntryMissing(lang: string)
    | SituationMissing(lang: string) | TipMissing(lang: string) | QuizMissing(lang: string)
    | QuestionMissing(lang: string) | AnswerMissing(lang: string)
    | QuizHasOptionsField(lang: string)
    | QuestionMissingLabels(lang: string, labels: seq<char>)
    | ContentKana(lang: string) | ContentHangul(lang: string) | ContentForeignScript(lang: string)
    | AnswerNotLabel(lang: string, answer: string)
    | OptionsMixedScripts(lang: string)
    | PatternNeedsTargetOptions(lang: string)
    | PatternNeedsEnglishOptions(lang: string)
    // dialogue
    | DialogueLength(length: nat)
    | DialogueEnNotEnglish(index: nat)
    | TranslationMarkdown(index: nat, lang: string, text: string)
    | ExpressionLeak(index: nat, lang: string, expression: string)
    | TranslationForeignScript(index: nat, lang: string)
    | TranslationHangul(index: nat, lang: string)
    | FemaleAddressesFemale(index: nat, name: string)
    | MaleAddressesMale(index: nat, name: string)

  datatype ValidationResult = ValidationResult(valid: bool, errors: seq<Violation>)

  /** The three validators differ only in which rules they apply:
    * `Strict` is n8n/expressions/code/11_validate_content.js, `Database` is
    * verification/verify_db_data.js, `Relaxed` is
    * n8n/expressions/v2/12_validate_content_v2.js. */
  datatype Variant = Strict | Database | Relaxed

  const TargetLangs: seq<string> := ["ko", "ja", "es", "fr", "de", "ru", "zh", "ar"]

  /** Languages whose texts are scanned for English leakage. */
  const NonLatinLangs: seq<string> := ["ko", "ja", "zh", "ru", "ar"]

  const LatinLangs: seq<string> := ["es", "fr", "de"]

  const AllowedEnglishTerms: seq<string> := ["iPhone", "eBay", "iMac", "iPad", "iOS", "macOS"]

  /** Names removed from a quiz question before looking for English in it. */
  const AllowedNames: seq<string> := ["Sarah", "Emily", "Mike", "David", "SNS"]

  const QuizLabels: seq<string> := ["A", "B", "C"]
}
