# speak-mango-en, modelled in Dafny

A verified model of the deterministic core of the speak-mango-en vocabulary
app: the content validators of the n8n pipeline and of the database check,
the locale-file validator, the pipeline's record rewrites (meaning cleanup,
TTS fan-out and aggregation, backfill merges, prompt grouping), the quiz
parser and quiz state machine, the client stores with their optimistic
pending-operation counters, the sliding-window rate limiters, locale
detection and routing helpers, and the handler arithmetic of a few UI
components.

Each source file of the core is one module (`validation.dfy` holds the
imperative form of the three content validators, `content_rules.dfy` the
rule functions they are proved against). Code that the sources write as loops
pushing to arrays or as objects mutating their fields is written as methods
with loop invariants, or as classes with `modifies` clauses; each such method
is proved against a specification function, and the properties the sources
promise are lemmas about those functions.

## Modelling conventions

- JSON records are typed views: a string field is `""` when the JSON value is
  absent or falsy, an object field is `None` when absent or falsy.
- A violation is a datatype constructor carrying the values its message
  interpolates; the message wording is not modelled.
- JavaScript string primitives (`trim`, `includes`, `split`, `replace`,
  `toLowerCase`, regular-expression tests) are written out in module `Text`
  with ECMAScript white space, ASCII-only case mapping and literal (not
  pattern) replacement: the replacement text is inserted as it is, so the
  `$&`, `$$`, `` $` `` and `$'` patterns that `String.prototype.replace`
  expands in it are not interpreted. This matters only where the
  replacement comes from data, as the sense does in `Seo.MeaningKeyword`.
- Strings are sequences of Unicode scalar values (Dafny's `char`), where
  JavaScript strings are sequences of UTF-16 code units. The two agree on
  text without characters beyond U+FFFF; lengths, indices and `substring`
  bounds differ on text with them (see "Left out"). The Unicode script
  classes are range predicates that touch no surrogate, so they answer the
  same on either view.

## Model

| member | source | states |
|---|---|---|
| Scripts.IsAllowed | n8n/expressions/code/11_validate_content.js:419-424 | the `some` loop is true exactly when some allow-listed term equals the word ignoring case |
| Scripts.FilterLeaks | n8n/expressions/code/11_validate_content.js:417-431 | the filter loop keeps exactly the words that are neither allow-listed nor capital-initial, in order |
| Validation.CheckEnglishInclusion | n8n/expressions/code/11_validate_content.js:414-440 | appends to the given list exactly the leak report of `ContentRules.LeakErrors` |
| Validation.CheckTag | n8n/expressions/code/11_validate_content.js:69-83 | appends exactly the four tag rules' violations, in source order |
| Validation.CheckTags | n8n/expressions/code/11_validate_content.js:68-84 | the tag loop appends the violations of every tag, tag by tag |
| Validation.CheckMeaningScripts | n8n/expressions/code/11_validate_content.js:98-103 | appends exactly the Korean and Japanese foreign-script reports |
| Validation.CheckPunctuation | n8n/expressions/code/11_validate_content.js:112-123 | appends exactly the punctuation reports of the variant (strict: period outside `...`, semicolon, ideographic stop; database: final period) |
| Validation.CheckMeaning | n8n/expressions/code/11_validate_content.js:90-124 | a missing meaning yields one report (none for the relaxed variant) and stops; otherwise scripts, leaks and punctuation in that order |
| Validation.CheckMeanings | n8n/expressions/code/11_validate_content.js:87-125 | the language loop (targets plus `en` for the strict variant) appends every language's reports in order |
| Validation.CheckLabels | n8n/expressions/code/11_validate_content.js:156-174 | appends one report listing the missing labels, in the order A, B, C, exactly when some label is missing |
| Validation.CheckQuiz | n8n/expressions/code/11_validate_content.js:143-174 | appends the missing-question, missing-answer, options-field and label reports in order |
| Validation.CheckQuizStructure | n8n/expressions/code/11_validate_content.js:137-175 | appends the situation, tip and quiz reports in order |
| Validation.CheckFields | n8n/expressions/code/11_validate_content.js:177-198 | appends at most one script report per non-empty field, chosen by language |
| Validation.CollectOptions | n8n/expressions/code/11_validate_content.js:211-224 | collects, in line order, the trimmed text after the label of every line that starts, trimmed, with `A.`, `B.` or `C.` |
| Validation.CountTarget | n8n/expressions/code/11_validate_content.js:227-235 | counts the options written in the language's own script |
| Validation.GatherQuestionBody | n8n/expressions/code/11_validate_content.js:249-260 | concatenates the lines before the first `A.` line, each followed by a space |
| Validation.RemoveEach | n8n/expressions/code/11_validate_content.js:264-274 | removes each listed word, in order, ignoring case |
| Validation.CheckOptions | n8n/expressions/code/11_validate_content.js:209-295 | with three options, appends the mixed-script report and (strict only) the pattern report |
| Validation.CheckPattern | n8n/expressions/code/11_validate_content.js:249-292 | strict only: with ASCII words in the cleaned question body all three options must be in the target script, without them none may be |
| Validation.CheckAnswer | n8n/expressions/code/11_validate_content.js:200-206 | appends a report exactly when a present answer is not `A`, `B` or `C` |
| Validation.CheckContentLang | n8n/expressions/code/11_validate_content.js:130-295 | a missing entry yields one report (none for the relaxed variant) and stops; otherwise structure, fields, answer and options in that order |
| Validation.CheckContent | n8n/expressions/code/11_validate_content.js:128-297 | the target-language loop appends every language's content reports in order |
| Validation.CheckTranslationLeak | n8n/expressions/code/11_validate_content.js:328-348 | word-by-word leak check for non-Latin languages, whole-expression check longer than four characters otherwise |
| Validation.CheckTranslationScripts | n8n/expressions/code/11_validate_content.js:351-358 | appends exactly the Korean and Japanese foreign-script reports of a translation |
| Validation.CheckTranslation | n8n/expressions/code/11_validate_content.js:317-358 | an absent translation is skipped; otherwise markdown, leak and script reports in that order |
| Validation.CheckTranslations | n8n/expressions/code/11_validate_content.js:315-360 | the target-language loop appends every translation's reports in order |
| Validation.CheckAddressing | n8n/expressions/code/11_validate_content.js:375-394 | appends one report per candidate name of the speaker's own gender |
| Validation.CheckTurn | n8n/expressions/code/11_validate_content.js:309-395 | appends the English-line, translation and (strict only) addressing reports of one turn, the addressed name taken as written: the last capture group of each matching pattern |
| Validation.CheckDialogue | n8n/expressions/code/11_validate_content.js:300-397 | the length rule (not for the relaxed variant), then every turn with its index |
| Validation.CheckTurns | n8n/expressions/code/11_validate_content.js:308-396 | the turn loop appends every turn's reports, turn by turn, each with its index |
| Validation.CheckMissingFields | n8n/expressions/code/11_validate_content.js:52-55 | pushes exactly one report per absent field, in the order expression, meaning, content, tags |
| Validation.CheckDialogueShape | n8n/expressions/code/11_validate_content.js:56-60 | pushes the missing-dialogue report, or else (not relaxed) the empty-dialogue report |
| Validation.CheckExpressionPunctuation | n8n/expressions/code/11_validate_content.js:63-65 | pushes the punctuation report exactly when the trimmed expression ends in `.` or `,` (not relaxed) |
| Validation.CheckStructure | n8n/expressions/code/11_validate_content.js:52-65 | the top-level pushes equal `ContentRules.StructureErrors` |
| Validation.ValidateItem | n8n/expressions/code/11_validate_content.js:48-403 | returns `ContentRules.Validate`: all sections in order, valid exactly when no error was pushed |
| Validation.RunStrict | n8n/expressions/code/11_validate_content.js:446-484 | marks every item with its validation status and errors, then fails with the reports of the invalid items, or passes all marked items on |
| Validation.ReportsEmptyIff | n8n/expressions/code/11_validate_content.js:472-484 | the strict run passes exactly when every item is valid |
| Validation.ReportsFromFailures | n8n/expressions/code/11_validate_content.js:458-463 | every report names an invalid item by its expression with that item's errors |
| Validation.StrictReportErrors | n8n/expressions/code/11_validate_content.js:458-463 | a strict report always carries at least one error |
| Validation.RunRelaxed | n8n/expressions/v2/12_validate_content_v2.js:145-180 | the valid items, in input order and unchanged, go on; the invalid ones are set aside with their errors |
| Validation.RelaxedKeepsValid | n8n/expressions/v2/12_validate_content_v2.js:148-180 | an item goes on exactly when it is valid; when every item fails nothing goes on |
| Validation.RelaxedPartition | n8n/expressions/v2/12_validate_content_v2.js:152-168 | every item lands on exactly one of the two lists |
| ContentRules.MissingFieldsExactly | verification/verify_db_data.js:51-54 | each absent top-level field (expression, meaning, content, tags) is reported by its own violation, exactly when absent |
| ContentRules.StructureMissingExpression | n8n/expressions/code/11_validate_content.js:52 | a missing expression is reported by every variant, exactly when it is missing |
| ContentRules.StructureDialogueShape | n8n/expressions/v2/12_validate_content_v2.js:30 | a missing or non-array dialogue is reported by every variant; an empty one only by the strict and database variants |
| ContentRules.StructureExpressionPunctuation | n8n/expressions/code/11_validate_content.js:63-65 | the expression-punctuation report appears exactly when the trimmed expression ends in `.` or `,` (not for the relaxed variant) |
| ContentRules.DialogueShapeErrors | n8n/expressions/code/11_validate_content.js:56-60 | missing dialogue and empty dialogue are each reported exactly when they hold, and nothing else is |
| ContentRules.ExpressionPunctuationErrors | n8n/expressions/code/11_validate_content.js:63-65 | a report exactly when a present expression ends, trimmed, in `.` or `,` |
| ContentRules.TagErrorsExactly | n8n/expressions/code/11_validate_content.js:70-82 | each tag rule fires exactly when its condition holds |
| ContentRules.TagErrorsOnly | n8n/expressions/code/11_validate_content.js:69-83 | a tag passes exactly when it has no `#`, is lowercase, has an ASCII letter and no foreign script |
| ContentRules.TagsPassIff | n8n/expressions/code/11_validate_content.js:68-84 | a tag list passes exactly when every tag passes |
| ContentRules.TagsNotListUnchecked | n8n/expressions/code/11_validate_content.js:68 | tags that are absent or not an array are not checked one by one |
| ContentRules.LeakErrorsShape | n8n/expressions/code/11_validate_content.js:434-439 | at most one leak report, present exactly when some word leaked, listing the leaked words |
| ContentRules.LeakReportExactly | n8n/expressions/code/11_validate_content.js:414-440 | a report lists exactly the scanned words that are neither allow-listed ignoring case nor capital-initial |
| ContentRules.MeaningLangs | n8n/expressions/code/11_validate_content.js:89 | the meaning languages include `en` exactly for the strict variant |
| ContentRules.PunctuationRules | n8n/expressions/code/11_validate_content.js:112-123 | the strict period, semicolon and ideographic-stop rules and the database final-period rule fire exactly under their conditions |
| ContentRules.PunctuationErrorsAbout | verification/verify_db_data.js:108-110 | every punctuation report is about the language checked |
| ContentRules.MeaningScriptErrors | n8n/expressions/code/11_validate_content.js:98-103 | the meaning script reports are only the foreign-script and Hangul reports of that language |
| ContentRules.MeaningScriptRules | n8n/expressions/code/11_validate_content.js:98-103 | Kana or Han in a Korean meaning, and Hangul in a Japanese one, are reported exactly when present |
| ContentRules.MeaningLeakRule | n8n/expressions/code/11_validate_content.js:106-108 | only ko, ja, zh, ru and ar meanings are scanned for English, and a report lists the leaked words |
| ContentRules.MeaningLangErrorsAbout | n8n/expressions/code/11_validate_content.js:90-124 | every violation found in `meaning[lang]` names that language |
| ContentRules.MeaningErrorsLangs | verification/verify_db_data.js:87 | every meaning violation names one of the variant's languages; the database and relaxed variants never report on `en` |
| ContentRules.MeaningPunctuationOnly | n8n/expressions/code/11_validate_content.js:110-123 | punctuation reports come from the punctuation rules alone |
| ContentRules.StrictMeaningPeriod | n8n/expressions/code/11_validate_content.js:112-123 | a present meaning is reported for a `.` left after deleting every `...`, for a `;`, and for a `。`, each exactly when it holds |
| ContentRules.EllipsisOnlyPasses | n8n/expressions/code/11_validate_content.js:111-114 | a meaning that is one ellipsis passes the strict period rule |
| ContentRules.DatabaseMeaningPeriod | verification/verify_db_data.js:108-110 | the database variant reports only a trimmed final period not part of `...`, never a mid-text period |
| ContentRules.MissingMeaningRule | n8n/expressions/v2/12_validate_content_v2.js:48 | a missing meaning is one report for the strict and database variants and silently skipped by the relaxed one |
| ContentRules.MissingLabelsExactly | n8n/expressions/code/11_validate_content.js:158-167 | each label is listed exactly when its test fails |
| ContentRules.LabelsRule | n8n/expressions/code/11_validate_content.js:156-174 | a present question is reported for its labels exactly when some label is missing, with exactly the missing labels |
| ContentRules.LabelsPresent | n8n/expressions/code/11_validate_content.js:158-163 | no label is missing exactly when `A. ` (at the start or after a newline), `\nB. ` and `\nC. ` all occur |
| ContentRules.FieldScriptErrors | n8n/expressions/code/11_validate_content.js:183-198 | each field yields at most one script report (the `else if` chain) |
| ContentRules.AnswerLabels | n8n/expressions/code/11_validate_content.js:200-206 | a present answer passes exactly when it is `A`, `B` or `C` |
| ContentRules.OptionOf | n8n/expressions/code/11_validate_content.js:215-223 | a line yields at most one option, and one exactly when, trimmed, it starts with `A.`, `B.` or `C.` |
| ContentRules.TargetCount | n8n/expressions/code/11_validate_content.js:235 | the target-script count never exceeds the number of options |
| ContentRules.FirstALine | n8n/expressions/code/11_validate_content.js:251-256 | the index of the first line that starts, trimmed, with `A.`, or the number of lines |
| ContentRules.DatabaseOptionsRule | verification/verify_db_data.js:213-228 | with three options the database variant accepts exactly a target-script count of 0 or 3 |
| ContentRules.StrictOptionsRule | n8n/expressions/code/11_validate_content.js:226-292 | with three options the strict variant accepts exactly: all three in the target script when the body (names and terms removed) has two adjacent ASCII letters, none otherwise |
| ContentRules.RelaxedSkipsMissingContent | n8n/expressions/v2/12_validate_content_v2.js:61 | a missing content entry is silently skipped by the relaxed variant |
| ContentRules.RelaxedChecksQuizFields | n8n/expressions/v2/12_validate_content_v2.js:63-80 | for es, fr and de the relaxed variant reports a foreign script exactly when one of situation, tip, question, A, B or C has one |
| ContentRules.MarkdownRule | verification/verify_db_data.js:257-261 | a present translation with `**` or `__` is reported, exactly then |
| ContentRules.ExpressionLeakRule | verification/verify_db_data.js:271-283 | an es, fr or de translation containing the expression ignoring case is reported exactly when the expression is longer than four characters |
| ContentRules.TranslationsOfSnoc | n8n/expressions/code/11_validate_content.js:316-359 | the translation loop's reports are the concatenation of each language's reports |
| ContentRules.TranslationErrorsAbout | n8n/expressions/code/11_validate_content.js:317-358 | every translation violation names its turn |
| ContentRules.TranslationsErrorsAbout | n8n/expressions/code/11_validate_content.js:315-360 | every violation from a turn's translations names that turn |
| ContentRules.GenderErrorsAbout | n8n/expressions/code/11_validate_content.js:375-394 | every addressing violation names its turn |
| ContentRules.TurnErrorsAbout | n8n/expressions/code/11_validate_content.js:308-396 | every violation of a turn names that turn |
| ContentRules.TurnsErrorsAbout | n8n/expressions/code/11_validate_content.js:308 | every turn violation names a turn of the dialogue |
| ContentRules.DialogueLengthRule | n8n/expressions/code/11_validate_content.js:302-306 | the length report appears exactly when a strict or database dialogue has fewer than 2 or more than 4 turns; never for the relaxed variant |
| ContentRules.Validate | n8n/expressions/code/11_validate_content.js:399-402 | the result is valid exactly when the error list is empty |
| ContentRules.SectionMakesInvalid | verification/verify_db_data.js:300-303 | any violation of any section is in the result and makes it invalid |
| ContentRules.ExpressionPunctuationRejected | n8n/expressions/code/11_validate_content.js:63-65 | an expression ending, trimmed, in `.` or `,` is rejected (strict and database) |
| Scripts.LetterRun | n8n/expressions/code/11_validate_content.js:415 | the length of the maximal ASCII-letter run at the start |
| Scripts.AsciiWords | n8n/expressions/code/11_validate_content.js:415 | every match of `/[a-zA-Z]{2,}/g` is a run of at least two letters |
| Scripts.AsciiWordsSound | n8n/expressions/code/11_validate_content.js:415 | every match is a maximal run of two or more ASCII letters of the text, placed by `WordSpans`, and the matches come in text order without overlap; with `AsciiWordsComplete`, the matches are exactly the maximal runs of two or more letters, left to right |
| Scripts.AsciiWordsEmptyIff | n8n/expressions/code/11_validate_content.js:276 | the scan finds nothing exactly when the text has no two adjacent ASCII letters |
| Scripts.AsciiWordsComplete | n8n/expressions/code/11_validate_content.js:415 | every maximal run of two or more letters is found |
| Scripts.LeakedWordsExactly | n8n/expressions/code/11_validate_content.js:417-431 | a word is kept exactly when scanned, not allow-listed ignoring case and not capital-initial |
| Scripts.NoWordsNoLeak | n8n/expressions/code/11_validate_content.js:415 | text without two adjacent ASCII letters leaks nothing |
| Text.ToLower | n8n/expressions/code/11_validate_content.js:71 | ASCII lowercasing keeps the length and maps each character |
| Text.ToLowerIdempotent | n8n/expressions/code/11_validate_content.js:71 | lowercasing twice is lowercasing once |
| Text.TrimShape | n8n/expressions/code/11_validate_content.js:63 | `trim` removes exactly the leading and trailing white space |
| Text.TrimOfTrimmed | n8n/expressions/code/11_validate_content.js:215 | trimming is idempotent |
| Text.FindFromFirst | n8n/expressions/code/11_validate_content.js:321 | the search finds the first occurrence at or after its start, or reports none |
| Text.ContainsIff | n8n/expressions/code/11_validate_content.js:321 | `includes` holds exactly when the pattern occurs somewhere |
| Text.ReplaceAllCharGone | n8n/expressions/code/11_validate_content.js:112 | replacing every occurrence of a character leaves none |
| Text.ReplaceAllAbsent | n8n/expressions/code/11_validate_content.js:112 | replacing an absent pattern changes nothing |
| Text.SplitJoin | n8n/expressions/code/11_validate_content.js:211 | joining the pieces of a split with the separator gives the text back |
| Text.SplitPiecesFree | n8n/expressions/code/11_validate_content.js:211 | no piece of a split contains the separator |
| AddressCheck.GenderErrorsExactly | n8n/expressions/code/11_validate_content.js:375-394 | a turn is reported exactly for each candidate name of the speaker's own gender: a female name from role A, a male one from role B |
| AddressCheck.AsWrittenOnlyFirstTwoReport | n8n/expressions/code/11_validate_content.js:371-378 | as written, the third and fourth expressions never lead to a report |
| AddressCheck.AsWrittenMissesMike | n8n/expressions/code/11_validate_content.js:371-378 | as written, role B saying "Mike, how are you?" is not reported |
| AddressCheck.CorrectedReportsMike | n8n/expressions/code/11_validate_content.js:371-378 | taking the name group, the same line is reported as a man addressing a man |
| LocaleCheck.ConfigForbidsOtherScripts | verification/verify_i18n_locales.js:62-142 | every configured language forbids exactly the scripts other than its own (Japanese allows kana and Han, the Latin-script languages forbid all five) |
| LocaleCheck.ExtractStrings | verification/verify_i18n_locales.js:186-200 | the entry loop with its recursion returns the records that `extractStrings` defines, in entry order |
| LocaleCheck.ExtractStringsExactly | verification/verify_i18n_locales.js:186-200 | a record is returned exactly when some index path leads to a string value and its path is the dot-joined keys on the way; other values contribute nothing |
| LocaleCheck.MatchAtShape | verification/verify_i18n_locales.js:252 | a match at a position is a non-empty word key, a colon, blanks, a quote, a non-empty quote-free value and a closing quote |
| LocaleCheck.FallbackMatchShape | verification/verify_i18n_locales.js:252 | the leftmost match of a line is such a key and value found at or after the search start |
| LocaleCheck.AssignGet | verification/verify_i18n_locales.js:254 | storing a key sets that key and leaves every other key's value unchanged |
| LocaleCheck.KeysAssign | verification/verify_i18n_locales.js:254 | storing a key adds at most that key and never makes a key appear twice |
| LocaleCheck.ParseFallback | verification/verify_i18n_locales.js:247-259 | the line loop builds the object the fold over the text's lines defines |
| LocaleCheck.FallbackLastWins | verification/verify_i18n_locales.js:251-256 | the fallback object holds a value under a key exactly when the last line matching with that key carries it |
| LocaleCheck.FallbackKeys | verification/verify_i18n_locales.js:247-259 | the object's keys are exactly the keys of matching lines, each once |
| LocaleCheck.ParseLocaleFile | verification/verify_i18n_locales.js:205-242 | an unreadable file or one without an exported object fails, a JSON-parsable literal gives its entries, otherwise the fallback object |
| LocaleCheck.FallbackStrings | verification/verify_i18n_locales.js:238-241 | the strings found in a fallback object are its entries in order, each under its own key |
| LocaleCheck.CheckForbidden | verification/verify_i18n_locales.js:283-289 | the inner loop pushes one report per forbidden script the string contains, in configuration order |
| LocaleCheck.ScriptErrorsPerScript | verification/verify_i18n_locales.js:283-289 | there are as many forbidden-script reports for a string as forbidden scripts it contains, each naming its path, language and value |
| LocaleCheck.CheckLocaleEnglish | verification/verify_i18n_locales.js:157-181 | one English report listing the scanned words that are neither allow-listed nor capital-initial, or none |
| LocaleCheck.CheckString | verification/verify_i18n_locales.js:281-295 | one string gets its forbidden-script reports, then its English report outside the Latin-script locales |
| LocaleCheck.CheckStrings | verification/verify_i18n_locales.js:281-295 | the loop over the strings pushes each string's reports in order |
| LocaleCheck.ValidateLocaleFile | verification/verify_i18n_locales.js:264-304 | the method returns the result the validation function defines |
| LocaleCheck.ValidIffClean | verification/verify_i18n_locales.js:264-304 | a file is valid exactly when it has no reports, and that holds exactly when its language is unconfigured or it parses and no string draws a report |
| LocaleCheck.FailureIsAlone | verification/verify_i18n_locales.js:296-298 | a failed read or parse gives exactly one report, the failure, and the failure report never appears otherwise |
| LocaleCheck.EnglishOnlyOutsideLatin | verification/verify_i18n_locales.js:292-294 | English reports occur only outside es, fr, de and en, each naming a string of the file and listing exactly its reportable words |
| LocaleCheck.EnglishReported | verification/verify_i18n_locales.js:292-294 | outside the Latin-script locales every string with a reportable word is reported |
| LocaleCheck.AllowedTermsNeverLeak | verification/verify_i18n_locales.js:162-167 | a word equal to an allow-listed term ignoring case is never reported |
| LocaleCheck.TemplateVariablesNeverLeak | verification/verify_i18n_locales.js:55-58 | the template variables are never reported |
| LocaleCheck.CheckLocales | verification/verify_i18n_locales.js:310-367 | a missing directory exits with 1; otherwise the violations are those the fold over the `.ts` files defines and the exit status is 1 exactly when there are any |
| LocaleCheck.ViolationsEmptyIff | verification/verify_i18n_locales.js:348-366 | the run succeeds exactly when every `.ts` file is valid |
| LocaleCheck.ViolationsFromFiles | verification/verify_i18n_locales.js:324-344 | each violation entry is an invalid `.ts` file with its language and its non-empty reports |
| CleanupMeaning.EllipsesRestored | n8n/expressions/code/10_cleanup_meaning.js:16-23 | for text without underscores, parking each `...` under the marker, deleting all full stops and restoring the marker keeps exactly the ellipses (taken leftmost) and drops every other full stop |
| CleanupMeaning.KeepEllipsesNonDots | n8n/expressions/code/10_cleanup_meaning.js:16-23 | the full-stop rewrites keep every other character in order, and leave a full stop only where the text had `...` |
| CleanupMeaning.KeepSplit | n8n/expressions/code/10_cleanup_meaning.js:17-23 | the full-stop rewrites act piecewise on text cut after a character that is not a full stop |
| CleanupMeaning.EllipsisKept | n8n/expressions/code/10_cleanup_meaning.js:17-23 | an `...` after text not ending in a full stop survives unchanged |
| CleanupMeaning.LoneDotDropped | n8n/expressions/code/10_cleanup_meaning.js:20 | a full stop with no full stop on either side disappears |
| CleanupMeaning.KeepEllipsesChars | n8n/expressions/code/10_cleanup_meaning.js:16-23 | the full-stop rewrites introduce no character |
| CleanupMeaning.NoSemicolonLeft | n8n/expressions/code/10_cleanup_meaning.js:28-31 | no semicolon is left in a cleaned text |
| CleanupMeaning.CleanTextDots | n8n/expressions/code/10_cleanup_meaning.js:16-31 | for text without underscores, cleaning is separator rewriting applied to the text with its lone full stops dropped and its ellipses kept |
| CleanupMeaning.CleanPlainText | n8n/expressions/code/10_cleanup_meaning.js:16-31 | text with no underscore, semicolon or `·` is changed only by dropping its lone full stops |
| CleanupMeaning.CollapseWithoutDot | n8n/expressions/code/10_cleanup_meaning.js:31 | text without `·` passes the blank collapse unchanged |
| CleanupMeaning.CollapseChars | n8n/expressions/code/10_cleanup_meaning.js:31 | the blank collapse writes only blanks and characters of its input |
| CleanupMeaning.CollapseFirst | n8n/expressions/code/10_cleanup_meaning.js:31 | the blank runs on both sides of the first `·` become a single space each, and the text in front of it is kept |
| CleanupMeaning.CollapsePrefix | n8n/expressions/code/10_cleanup_meaning.js:31 | text without `·` that does not end in a blank is copied through the collapse as it is |
| CleanupMeaning.CollapseAtRun | n8n/expressions/code/10_cleanup_meaning.js:31 | blanks, `·`, blanks at the start of the text become ` · ` |
| Text.SpaceRunIs | n8n/expressions/code/10_cleanup_meaning.js:31 | a maximal blank run is what the `\s+` of the pattern takes |
| CleanupMeaning.CleanLangs | n8n/expressions/code/10_cleanup_meaning.js:11-35 | after the loop over the nine target languages the meaning has the same keys, each target-language string is cleaned and every other value is as it was |
| CleanupMeaning.CleanupMeanings | n8n/expressions/code/10_cleanup_meaning.js:4-39 | every item is rewritten in place, items without a meaning are left alone, and the items keep their number and order |
| CleanupMeaning.CleanedMeaningKeeps | n8n/expressions/code/10_cleanup_meaning.js:10-13 | the meaning keeps its keys; values under other keys and values that are not strings are left as they were |
| Quiz.ParseQuizQuestion | lib/quiz.ts:19-49 | the loop returns the question lines (trimmed lines that are neither options nor empty) joined by single spaces, and the options of the option lines in line order |
| Quiz.QuestionTextTrimmed | lib/quiz.ts:39-47 | for trimmed lines, trimming `questionText` (each question line followed by a space) gives the question lines joined by single spaces |
| Quiz.QuestionTextShape | lib/quiz.ts:39-41 | `questionText` is the question lines joined by single spaces plus one trailing space, or empty when there are none |
| Quiz.TrimmedLinesTrimmed | lib/quiz.ts:23 | every line the loop sees neither starts nor ends with white space |
| Quiz.OptionShape | lib/quiz.ts:17 | a matched option's label is one of `A`, `B`, `C` and is the line's first character, a full stop follows, and the text starts with no blank and holds no line terminator |
| Quiz.OtherLabelIsNoOption | lib/quiz.ts:17 | a non-empty line starting with anything but `A`, `B`, `C` (such as `D. x`) is not an option and goes to the question |
| Quiz.BlankLinesIgnored | lib/quiz.ts:39 | a line of white space adds nothing to the question |
| Quiz.OptionsAreMatches | lib/quiz.ts:28-36 | the options are exactly the matches of the option lines |
| Quiz.OptionLineRoundTrip | lib/quiz.ts:17 | label, full stop, blanks and a text without line terminators and leading blank match as that label and text |
| Quiz.FormatRoundTrip | lib/quiz.ts:11-12 | parsing the stored form (question, blank line, one `A. ...` line per option, joined by newlines) of a well-formed quiz gives back its question and options |
| Quiz.FormattedLines | lib/quiz.ts:23 | the stored form splits and trims back into its lines |
| Quiz.FormatOptionsParse | lib/quiz.ts:28-41 | formatted option lines give back the options in order and add nothing to the question |
| QuizGame.InitialState | hooks/quiz/useQuizGame.ts:95-103 | the session starts at index 0 with score 0, playing, no selection, unchecked and an empty history |
| QuizGame.SubmitOnChecked | hooks/quiz/useQuizGame.ts:58 | a submit on a checked answer returns the state unchanged |
| QuizGame.SubmitAccepted | hooks/quiz/useQuizGame.ts:59-70 | an accepted submit selects the answer, checks it, adds one to the score exactly when correct, appends exactly one history entry and changes nothing else |
| QuizGame.NextMoves | hooks/quiz/useQuizGame.ts:72-78 | next moves the index on by one and clears selection and check; score, history, status and expressions stay |
| QuizGame.FinishOnlySummarises | hooks/quiz/useQuizGame.ts:80-84 | finish sets the status to summary and changes nothing else |
| QuizGame.RestoreAndUnknown | hooks/quiz/useQuizGame.ts:54-55 | a restore replaces the whole state; an unknown action returns the state |
| QuizGame.InitialConsistent | hooks/quiz/useQuizGame.ts:95-103 | the initial state is consistent |
| QuizGame.ReducerKeepsConsistent | hooks/quiz/useQuizGame.ts:52-88 | every action keeps the score equal to the correct answers of the history, a checked answer selected, and at most one answer per question (a restore given a consistent state) |
| QuizGame.ScoreBounded | hooks/quiz/useQuizGame.ts:62-68 | in a consistent state the score lies between 0 and the history length |
| QuizGame.RunKeepsConsistent | hooks/quiz/useQuizGame.ts:52-88 | any sequence of actions restoring only consistent states keeps the state consistent and the score within the history length |
| QuizGame.HandleNextStaysInRange | hooks/quiz/useQuizGame.ts:184-194 | `handleNext` dispatches next exactly when the index is below the last one and finish exactly on the last one, so the index stays on a question |
| QuizGame.HandleNextEmpty | hooks/quiz/useQuizGame.ts:185 | with no expressions `handleNext` finishes |
| QuizGame.AnswerSelectScores | hooks/quiz/useQuizGame.ts:164-175 | on an open question a selection is submitted, and it scores exactly when the label is the quiz's answer |
| QuizGame.AnswerSelectOnce | hooks/quiz/useQuizGame.ts:165 | once checked, a selection dispatches nothing |
| ActionTypes.TypeName | services/repositories/UserActionRepository.ts:7 | the two action types are named `save` and `learn` |
| JsSet.Refill | store/useUserActionStore.ts:46-47 | clearing a set and adding the ids one by one gives the set `new Set(ids)` builds: the ids without repeats, in first-occurrence order |
| JsSet.ToggleFlips | store/useUserActionStore.ts:55-59 | a has/delete/add toggle flips the membership of that id and of no other, and keeps the members distinct |
| JsSet.ToggleTwice | store/useLocalActionStore.ts:28-33 | toggling an id twice restores the members, and the exact order when the id was absent |
| UserActionStore.Store.constructor | store/useUserActionStore.ts:31-34 | both sets start empty, no operation is pending and neither type is initialised |
| UserActionStore.Store.Has | store/useUserActionStore.ts:74-77 | `has` is membership in the saved set for `save` and in the learned set for `learn` |
| UserActionStore.Store.SyncWithServer | store/useUserActionStore.ts:36-49 | the type is always marked initialised; with operations pending both sets are unchanged, otherwise the target set becomes exactly `ids` and the other set and the counter stay |
| UserActionStore.Store.OptimisticToggle | store/useUserActionStore.ts:51-61 | the counter rises by exactly one, the membership of that one id flips in the target set only, nothing else changes |
| UserActionStore.Store.ResolveOperation | store/useUserActionStore.ts:63-72 | the counter drops by one with a floor of 0, and the target set is replaced by the server ids only when the counter reaches 0 and ids were given |
| LocalActionStore.Store.constructor | store/useLocalActionStore.ts:21-25 | the three sets start empty |
| LocalActionStore.Store.ToggleAction | store/useLocalActionStore.ts:26-40 | the type's set becomes its toggle by the id; the other types' sets are the same |
| LocalActionStore.ToggleTwiceRestores | store/useLocalActionStore.ts:28-33 | toggling the same id twice restores the set's members, and the set itself when the id was absent |
| LocalActionStore.Store.HasAction | store/useLocalActionStore.ts:41-42 | `hasAction` is membership in what `getActions` returns |
| LocalActionStore.Merge | store/useLocalActionStore.ts:53-63 | the persisted arrays become sets, and a missing array becomes the empty set |
| LocalActionStore.PersistRoundTrip | store/useLocalActionStore.ts:46-63 | `partialize` followed by `merge` reproduces the same three sets |
| LocalActionStore.MergeMembers | store/useLocalActionStore.ts:58-60 | each merged set has exactly the elements of its persisted array |
| LocalActionStore.Store.Rehydrate | store/useLocalActionStore.ts:53-62 | rehydration installs the merged sets as the actions |
| LocalRepository.StorageKey | services/repositories/LocalUserActionRepository.ts:3-7 | the storage key is `mango_actions_` followed by the type's name |
| LocalRepository.StorageKeysDistinct | services/repositories/LocalUserActionRepository.ts:5-7 | the two types are stored under different keys |
| LocalRepository.StoredIds | services/repositories/LocalUserActionRepository.ts:9-21 | the stored ids are a set; without a window, or with an absent or unparsable entry, they are empty |
| LocalRepository.ReadAfterWrite | services/repositories/LocalUserActionRepository.ts:9-27 | a set written under one type's key reads back as that set, and the other type reads as before |
| LocalRepository.Repository.constructor | services/repositories/LocalUserActionRepository.ts:10-24 | the repository is given whether a window exists and the storage contents |
| LocalRepository.Repository.SaveStoredIds | services/repositories/LocalUserActionRepository.ts:23-27 | with a window the ids are stored under the type's key; without one nothing is written |
| LocalRepository.Repository.GetActions | services/repositories/LocalUserActionRepository.ts:30-32 | `getActions` returns the stored set |
| LocalRepository.Repository.HasAction | services/repositories/LocalUserActionRepository.ts:44-47 | `hasAction` is membership in the stored set |
| LocalRepository.Repository.ToggleAction | services/repositories/LocalUserActionRepository.ts:34-42 | the id's membership flips in the stored set, which is written back under the same key; other types read as before; without a window nothing changes |
| VocabularyView.View.constructor | hooks/user/useVocabularyView.ts:5-7 | selection mode is off, the view is FULL and the selection is empty |
| VocabularyView.View.ToggleSelectionMode | hooks/user/useVocabularyView.ts:9-17 | the mode flips; leaving selection mode clears the selection and resets the view to FULL, entering it changes nothing else |
| VocabularyView.View.ToggleItem | hooks/user/useVocabularyView.ts:19-29 | the membership of exactly that id flips and the modes stay |
| VocabularyView.View.SetViewMode | hooks/user/useVocabularyView.ts:31-33 | only the view mode changes |
| BulkAction.BulkAction.constructor | hooks/user/useBulkAction.ts:17 | there is no bulk-action state at first |
| BulkAction.BulkAction.IsOpen | hooks/user/useBulkAction.ts:37 | `isOpen` is true exactly when a state exists and is open |
| BulkAction.BulkAction.Kind | hooks/user/useBulkAction.ts:38 | the exposed type is defined exactly when a state exists |
| BulkAction.BulkAction.Open | hooks/user/useBulkAction.ts:19-40 | `openCopy` and `openMove` set the state to that type, open |
| BulkAction.BulkAction.Close | hooks/user/useBulkAction.ts:23-41 | `close` resets the state, so nothing is open and the type is undefined |
| BulkAction.BulkAction.SetOpen | hooks/user/useBulkAction.ts:27-33 | `onOpenChange(false)` resets the state; `onOpenChange(true)` keeps the type, opens an existing state and leaves a missing one missing |
| VocabularyModal.ModalStore.constructor | store/useVocabularyModalStore.ts:15-17 | the modal starts closed, with no expression id and no callback |
| VocabularyModal.ModalStore.OpenModal | store/useVocabularyModalStore.ts:18 | opening sets the flag and the expression id and keeps the callback |
| VocabularyModal.ModalStore.CloseModal | store/useVocabularyModalStore.ts:19-20 | closing clears the flag, the expression id and the callback |
| VocabularyModal.ModalStore.SetOnListAction | store/useVocabularyModalStore.ts:21 | only the callback changes |
| ExpressionCache.SetCache | context/ExpressionContext.tsx:46-51 | `setCache` overwrites one key with the given state and leaves every other key as it was |
| ExpressionCache.UpdateCacheDataSpec | context/ExpressionContext.tsx:57-75 | an unchanged size is a no-op; otherwise the size is set, the old scroll position kept (0 for a new key), and no other key changes |
| ExpressionCache.UpdateScrollPositionSpec | context/ExpressionContext.tsx:82-109 | a missing key is created with one page at the position; a move of less than one pixel is ignored; otherwise only that key's position changes |
| ExpressionCache.ScrollPositionIdempotent | context/ExpressionContext.tsx:97-99 | repeating a position update changes nothing |
| ExpressionCache.ExpressionProvider.constructor | context/ExpressionContext.tsx:40 | the cache starts empty |
| ExpressionCache.ExpressionProvider.ApplySetCache | context/ExpressionContext.tsx:46-51 | the provider's cache becomes the `setCache` update of the old cache |
| ExpressionCache.ExpressionProvider.ApplyUpdateCacheData | context/ExpressionContext.tsx:57-75 | the provider's cache becomes the `updateCacheData` update of the old cache |
| ExpressionCache.ExpressionProvider.ApplyUpdateScrollPosition | context/ExpressionContext.tsx:82-109 | the provider's cache becomes the `updateScrollPosition` update of the old cache |
| ExpressionCache.ExpressionProvider.GetCache | context/ExpressionContext.tsx:111-115 | `getCache` gives the stored state of a present key and nothing for a missing one |
| DialoguePlayer.Player.constructor | components/DialogueSection.tsx:31-32 | the player starts idle with no line tracked |
| DialoguePlayer.Player.HandlePlayAll | components/DialogueSection.tsx:35-47 | play-all when idle turns auto-play on at line 0; while auto-playing it turns it off and clears the index |
| DialoguePlayer.Player.HandleLineEnded | components/DialogueSection.tsx:49-65 | only the end of the tracked line during auto-play changes state: it moves to the next line, or stops and clears the index after the last line |
| DialoguePlayer.Player.HandleManualPlay | components/DialogueSection.tsx:67-74 | the clicked line becomes the tracked one, and auto-play survives only a click on the line already tracked |
| VocabularyStore.FirstIndex | store/useVocabularyStore.ts:72 | `findIndex` gives the first position holding the id, or -1 exactly when no list has it |
| VocabularyStore.FindListIndex | store/useVocabularyStore.ts:72 | the search loop stops at the first list with the id, or gives -1 |
| VocabularyStore.Store.constructor | store/useVocabularyStore.ts:41-43 | the store starts with no lists, no saved sets and nothing pending |
| VocabularyStore.Store.SetLists | store/useVocabularyStore.ts:45 | `setLists` replaces the lists and nothing else |
| VocabularyStore.Store.SyncWithServer | store/useVocabularyStore.ts:48-52 | the lists become the server data only when no operation is pending; the counter and saved sets stay |
| VocabularyStore.Store.OptimisticToggle | store/useVocabularyStore.ts:54-90 | the counter rises by exactly one; the lists and saved sets become their toggled forms |
| VocabularyStore.ToggleAdjustRule | store/useVocabularyStore.ts:59-77 | a count moves only when the list exists and either the expression has no saved set or its membership really changes; ids, titles, defaults and every other list stay |
| VocabularyStore.ToggleKeepsCountsNonNegative | store/useVocabularyStore.ts:74-76 | a toggle never makes a count negative |
| VocabularyStore.RemovalFloorsAtZero | store/useVocabularyStore.ts:74-76 | an addition adds one to the count (a missing count read as 0); a removal takes one off but never goes below 0 |
| VocabularyStore.ToggleSavedMembership | store/useVocabularyStore.ts:80-88 | after an addition the list is in the expression's saved set; after a removal from an existing set it is not; no other membership and no other expression changes |
| VocabularyStore.ToggleIdempotent | store/useVocabularyStore.ts:62-70 | repeating an addition, or a removal on an expression with a saved set, changes nothing more |
| VocabularyStore.RemovalWithoutMappingRepeats | store/useVocabularyStore.ts:63-67 | without a saved set the caller is trusted, so a repeated removal decrements the count again |
| VocabularyStore.AddThenRemoveRestores | store/useVocabularyStore.ts:54-90 | adding an expression to a list it was not in and removing it again restores the lists and the saved sets exactly |
| VocabularyStore.Store.OptimisticSetDefault | store/useVocabularyStore.ts:92-99 | the loop marks each list default exactly when its id matches, and the counter rises by one |
| VocabularyStore.SetDefaultExactly | store/useVocabularyStore.ts:95-97 | exactly the lists with that id become default; ids, titles and counts stay |
| VocabularyStore.SetDefaultUnique | store/useVocabularyStore.ts:95-97 | with distinct ids and the list present, exactly one list is default afterwards |
| VocabularyStore.Store.OptimisticUpdateTitle | store/useVocabularyStore.ts:101-107 | the first list with the id is renamed and the counter rises by one |
| VocabularyStore.UpdateTitleFirstOnly | store/useVocabularyStore.ts:104-105 | only the first list with the id changes, and only its title; with no such list nothing changes |
| VocabularyStore.Store.OptimisticDeleteList | store/useVocabularyStore.ts:109-114 | the lists with that id are removed and the counter rises by one |
| VocabularyStore.DeleteKeepsOthers | store/useVocabularyStore.ts:112 | exactly the lists with another id remain; with no list of that id nothing changes |
| VocabularyStore.DeleteKeepsOrder | store/useVocabularyStore.ts:112 | the remaining lists keep their order |
| VocabularyStore.Store.ResolveOperation | store/useVocabularyStore.ts:117-125 | the counter drops by one with a floor of 0; the lists are replaced only when it reaches 0 and server data is given |
| VocabularyStore.Store.SyncSavedListIds | store/useVocabularyStore.ts:127-131 | the expression's saved set becomes `new Set(listIds)`; lists and counter stay |
| VocabularyStore.SyncedSavedListIds | store/useVocabularyStore.ts:127-131 | the synced saved set holds exactly the given ids, once each |
| VocabularyStore.Store.SelectSavedListIds | store/useVocabularyStore.ts:138-140 | the selector gives the expression's saved set, or the empty set when it has none |
| VocabularyLists.AdjustItemCountsSpec | hooks/user/useVocabularyListSync.ts:35-40 | each adjusted list's count becomes max(0, count + delta) with a missing count read as 0; other lists are unchanged; length, order, ids, titles and defaults are kept |
| VocabularyLists.AdjustItemCountsIn | hooks/user/useVocabularyListSync.ts:33-45 | the store's lists become the adjusted lists, and the cache is given the same lists |
| VocabularyLists.ResolveAndSyncLists | hooks/user/useVocabularyListSync.ts:18-28 | the operation is resolved first, then the cache is given the store's lists as the resolve left them |
| VocabularyLists.InvalidationMatches | hooks/user/useVocabularyListSync.ts:48-57 | the predicate matches exactly array keys whose first part is `vocabulary-details` and whose second part is not this list's id |
| VocabularyLists.DefaultsFirstPermutes | hooks/user/useVocabularyLists.ts:66-70 | the defaults-first sort is a permutation of its input |
| VocabularyLists.DefaultsFirstOrders | hooks/user/useVocabularyLists.ts:66-70 | after the sort every default list comes before every other list |
| VocabularyLists.DefaultsFirstStable | hooks/user/useVocabularyLists.ts:66-70 | the sort is stable: defaults keep their order, and so do the others |
| VocabularyLists.ProListsSpec | hooks/user/useVocabularyLists.ts:64-71 | Pro lists are the store's lists when it has any, else the server data (or none), reordered with defaults first |
| VocabularyLists.StrLessTransitive | hooks/user/useVocabularyLists.ts:76 | code-unit order on creation times, the comparison `localeCompare` makes of ISO timestamps, is transitive |
| VocabularyLists.StrLessTotal | hooks/user/useVocabularyLists.ts:76 | two different creation times are always ordered one way or the other |
| VocabularyLists.InsertLocalSpec | hooks/user/useVocabularyLists.ts:73-77 | inserting a list into sorted lists keeps them sorted and adds exactly that list |
| VocabularyLists.SortLocalSpec | hooks/user/useVocabularyLists.ts:73-77 | the free-plan sort is a sorted permutation of its input |
| VocabularyLists.FreeListsSpec | hooks/user/useVocabularyLists.ts:73-84 | free lists show each local list once, defaults first and otherwise by creation time ascending; each count is its item-set size and a missing default flag reads as false |
| VocabularyLists.PushServerData | hooks/user/useVocabularyLists.ts:37-41 | server data reaches the store only when it is non-empty, and the store takes it only when nothing is pending |
| VocabularyLists.CreateList | hooks/user/useVocabularyLists.ts:87-105 | a free user with 5 or more lists gets LIMIT_REACHED; a Pro user always creates on the server |
| VocabularyLists.FreeToggle | hooks/user/useVocabularyLists.ts:109-116 | a free toggle removes exactly when the item is currently in the list, and adds otherwise |
| VocabularyLists.ProToggleInList | hooks/user/useVocabularyLists.ts:118-138 | one optimistic toggle with `add = !isCurrentlyIn`, then exactly one resolve on success and on failure (with the refetched or last known data), so the counter is back where it was; a failure is reported |
| VocabularyLists.ProSetDefaultList | hooks/user/useVocabularyLists.ts:161-174 | one optimistic set-default, then exactly one resolve on success and on failure, so the counter is back where it was; a failure is reported |
| RateLimiter.MergeFieldwise | lib/server/rateLimiter.ts:28-106 | the default is 60 requests per 60000 ms, and each field given overrides the default's while a field left out keeps it |
| RateLimiter.InWindowMembers | lib/server/rateLimiter.ts:112 | the window keeps exactly the timestamps strictly after its start, and never more of them |
| RateLimiter.InWindowIdempotent | lib/server/rateLimiter.ts:70-112 | pruning twice with the same bound prunes nothing more |
| RateLimiter.CleanedSpec | lib/server/rateLimiter.ts:69-76 | a clean-up keeps a key exactly when it has a timestamp after the cutoff, and keeps exactly those timestamps |
| RateLimiter.Limiter.constructor | lib/server/rateLimiter.ts:46-53 | the store starts empty and the last clean-up is the load time |
| RateLimiter.Limiter.CleanupIfNeeded | lib/server/rateLimiter.ts:59-77 | within five minutes of the last clean-up nothing changes; otherwise the time is recorded and the key loop leaves exactly the cleaned store for the default 60 s window |
| RateLimiter.Limiter.CheckRateLimit | lib/server/rateLimiter.ts:99-122 | after the clean-up the request is rejected exactly when the stored timestamps after `now - windowMs` number at least the limit, with the error built from the undeclared code (message and code `undefined`), leaving the store as the clean-up left it; otherwise the key holds its in-window timestamps followed by `now` |
| RateLimiter.AcceptedWithinLimit | lib/server/rateLimiter.ts:115-121 | an accepted request leaves at most `limit` timestamps for the key, all in the window and ending with `now`, and every other key as it was |
| RateLimiter.BurstKeepsAll | lib/server/rateLimiter.ts:112-120 | timestamps still in the window are never pruned, so the next check sees every earlier accepted request plus the latest |
| RateLimiter.OtherKeysUntouched | lib/server/rateLimiter.ts:121 | storing a key's timestamps leaves every other key as it was |
| AppErrors.Member | types/error.ts:42-68 | reading a property of an error-code object gives its code when declared and `undefined` otherwise |
| AppErrors.CreateAppError | types/error.ts:90-97 | the error is an object whose message and code are both the given code, and it passes `isAppError` exactly when the code is a string |
| AppErrors.DeclaredCodesAreAppErrors | types/error.ts:80-95 | every error built from a declared code is an `AppError` carrying that code |
| AppErrors.UnauthorizedShared | types/error.ts:49-59 | `ACTION_ERROR.UNAUTHORIZED` and `VOCABULARY_ERROR.UNAUTHORIZED` equal `COMMON_ERROR.UNAUTHORIZED`, and the codes within each group are distinct |
| AppErrors.NonErrors | types/error.ts:75-82 | null, undefined, strings and objects without a string message are not `AppError`s |
| AppErrors.RateLimitErrorAsWritten | lib/server/rateLimiter.ts:116 | `COMMON_ERROR` declares no `RATE_LIMIT_EXCEEDED`, so the thrown object has an undefined message and fails `isAppError` |
| AppErrors.RateLimitErrorThrown | lib/server/rateLimiter.ts:116 | the error the limiter throws is an object with `undefined` message and code, which `isAppError` rejects |
| AppErrors.RateLimitError | lib/server/rateLimiter.ts:116 | with the code declared, the thrown error is an `AppError` with code `RATE_LIMIT_EXCEEDED` |
| AppErrors.RateLimitErrorCorrected | lib/server/rateLimiter.ts:116 | with the code declared the thrown error's message is `RATE_LIMIT_EXCEEDED` and the existing code is kept |
| Proxy.ClientIp | proxy.ts:64-67 | the client address is the trimmed first `x-forwarded-for` entry when it is not blank, else a non-empty `x-real-ip`, else `unknown`; it is never empty |
| Proxy.ClientIpFirstEntry | proxy.ts:65 | of a list of forwarding addresses the first, trimmed, is taken |
| Proxy.AuthCheckBounded | proxy.ts:36-53 | an allowed call stores at most 20 recent times ending with `now`; a limited call stores the pruned list without `now`; no time is invented and every other address is left alone |
| Proxy.LimitedStaysLimited | proxy.ts:45-48 | checking a limited address again at the same instant finds the same requests and adds none |
| Proxy.StudioAuth | proxy.ts:90-127 | a missing or empty header is refused as "Authentication required", a token `atob` rejects as "Authentication failed", wrong credentials as "Invalid credentials"; only the configured user is let through |
| Proxy.StudioAcceptsCredentials | proxy.ts:95-101 | `Basic <token>` decoding to the configured `user:password` is let through |
| Proxy.StudioRefusesOthers | proxy.ts:98-118 | credentials decoding to another user or password are refused as invalid, and an undecodable token as failed |
| Proxy.UnsetPasswordAcceptsUserAlone | proxy.ts:96-100 | with `ADMIN_PASSWORD` unset, credentials without `:` compare an absent password with an absent variable, so the user name alone is let through |
| Proxy.PathLocaleOrder | proxy.ts:137-147 | the path locale is ko, ja or es, tried in that order; the default `en` is never read from a path |
| Proxy.StripLocaleRest | proxy.ts:144 | removing the `/xx` prefix leaves the rest of the path, and `/` for the bare prefix |
| Proxy.DetectPathLocale | proxy.ts:130-147 | the loop finds the first non-default supported locale whose `/xx` equals the path or prefixes it followed by `/`, and gives the path without the prefix; otherwise the default and the path unchanged |
| Proxy.FallbackLocale | proxy.ts:153-174 | without a path locale a supported `?lang` wins; otherwise the lowercased primary subtag of the first `Accept-Language` entry when supported; otherwise the default |
| Proxy.FallbackExamples | proxy.ts:155-157 | a supported `?lang=es` beats a Japanese browser, and an unsupported one with no header gives `en` |
| Proxy.FallbackFromHeader | proxy.ts:160-171 | a `ja-JP,ja;q=0.9` browser without a usable `?lang` gets `ja` |
| Proxy.Localized | proxy.ts:129-196 | a request past the sign-in and studio checks keeps its headers and gains `x-locale` (a supported locale) and `x-url`; it is rewritten exactly when the path has a locale |
| Proxy.UnderLocale | proxy.ts:140-144 | a path under `/xx/` matches locale `xx` and is served by the path without the prefix |
| Proxy.JapanesePath | proxy.ts:137-189 | `/ja/expressions/x` is rewritten to `/expressions/x` with `x-locale: ja`, whatever the query or browser asks |
| Proxy.ProxyState.constructor | proxy.ts:17-18 | the sign-in store starts empty and the last clean-up is the load time |
| Proxy.ProxyState.CleanupAuthStoreIfNeeded | proxy.ts:20-34 | within five minutes nothing changes; otherwise the time is recorded, addresses without a request in the last minute are dropped and the others pruned |
| Proxy.ProxyState.IsAuthRateLimited | proxy.ts:36-53 | after the clean-up an address is limited exactly when it has 20 requests in the last 60 s; its pruned list is stored either way, with `now` added only when not limited |
| Proxy.ProxyState.Proxy | proxy.ts:59-197 | an `/api/auth` request gets 429 with `Retry-After: 60` (section 4 of RFC 6585) when limited and passes straight through otherwise; a refused `/studio` request gets 401 with the Basic challenge (section 2 of RFC 7617); every other request is localized; only `/api/auth` touches the store |
| Middleware.PreferredLocale | middleware.ts:14-17 | the preferred locale is the lowercased primary subtag of the first comma-separated entry, and holds neither `,` nor `-` |
| Middleware.PreferredLocalePrefix | middleware.ts:14-17 | a header starting with a tag followed by `,` or `-` prefers that tag lowercased |
| Middleware.PreferredLocaleBare | middleware.ts:14-17 | a header without `,` or `-` is its own preferred locale, lowercased |
| Middleware.DetectLocale | middleware.ts:9-22 | the locale is `ko` with no header; otherwise the preferred locale exactly when it is ko, ja or es, and `ko` when it is anything else |
| Middleware.Middleware | middleware.ts:24-32 | the request headers are passed on with `x-locale` set to the detected locale and nothing else changed |
| Middleware.PreferredLowerTag | middleware.ts:14-17 | a lowercase primary subtag followed by `-` and a region is the preferred locale |
| Middleware.JapaneseBrowser | middleware.ts:12-21 | a browser sending `ja-JP,ja;q=0.9` gets `ja` |
| Middleware.EnglishBrowser | middleware.ts:12-21 | a browser sending `en-US,en;q=0.9` gets the default `ko` |
| I18n.SupportedLocales | i18n/index.ts:8-55 | `isSupportedLocale` is true exactly for a string that is one of en, ko, ja, es; `null`, `fr` and `EN` are not supported |
| I18n.GetContentLocale | i18n/index.ts:65-73 | the fallback for absent data or when the locale is the fallback; otherwise the locale exactly when the data has it as a key, else the fallback |
| I18n.ContentLocaleAvailable | i18n/index.ts:70-72 | the chosen key is one the data has, or the fallback |
| I18n.GetDictionary | i18n/index.ts:82-88 | a supported locale gets its own dictionary, any other locale the English one |
| I18n.GetDictionaryIdempotent | i18n/index.ts:82-88 | looking the dictionary up again with its own locale gives it back |
| Messages.FormatPlaceholder | lib/utils.ts:16-21 | `{key}` is replaced by the parameter of that name when it is a non-empty string, and kept as written otherwise |
| Messages.SinglePass | lib/utils.ts:20 | formatting text with a placeholder in it formats the text before it and after it separately and substitutes the placeholder once |
| Messages.FormatConcat | lib/utils.ts:20 | the global replace distributes over a concatenation whose second part starts with neither a word character nor `}` |
| Messages.NoPlaceholders | lib/utils.ts:20 | a template without `{` comes back unchanged |
| Messages.NotRescanned | lib/utils.ts:20 | substituted text is not scanned again: `{a}` with `a` set to `{b}` gives `{b}` |
| Routes.ExpressionDetail | lib/routes.ts:7 | the detail route is `/expressions/` followed by the id, unchanged |
| Routes.GetHomeWithFilters | lib/routes.ts:16-35 | with no filter set the URL is `/`; otherwise `/?` followed by the serialised category, search and tag pairs, in that order |
| Routes.FilterPairsExactly | lib/routes.ts:23-31 | each filter is in the query exactly when it is set (a category other than `all`), with its own value, and no filter at all gives no query |
| SearchParams.SetValues | lib/routes.ts:24-30 | after `set`, the name has exactly the value set (and `get` returns it), and every other name keeps its values |
| SearchParams.DeleteValues | components/FilterBar.tsx:50-51 | after `delete`, the name has no value and every other name keeps its values |
| SearchParams.OverwriteInPlace | lib/routes.ts:24 | setting a name already present, in a query of distinct names, replaces that one pair in its place |
| SearchParams.SerializeEmpty | lib/routes.ts:33-34 | the query string is empty exactly when there are no pairs |
| Pagination.CurrentGroup | components/ui/Pagination.tsx:39-40 | the group number is the ceiling of the page divided by five: the page lies in (5(g-1), 5g] |
| Pagination.GroupBounds | components/ui/Pagination.tsx:39-42 | for a valid page, the group starts at 5k+1, holds the page, ends at or before the last page and shows at most five pages |
| Pagination.SameGroup | components/ui/Pagination.tsx:40-41 | every page of a group has that group's start |
| Pagination.RenderPageNumbers | components/ui/Pagination.tsx:44-78 | one link per page from the group's start to its end, ascending, exactly the current page active |
| Pagination.BarControls | components/ui/Pagination.tsx:80-182 | first is disabled on page 1 or before, last on the last page or after, previous with no group before, next with no group after; last leads to the last page |
| Pagination.GroupTargets | components/ui/Pagination.tsx:127-157 | the previous-group control leads to the last page of the group before, the next-group control to the first page of the group after |
| Pagination.PageUrlKeepsQuery | components/ui/Pagination.tsx:31-36 | a page link has exactly one `page` parameter, the one asked for, and keeps every other parameter with its values |
| Pagination.RenderPagination | components/ui/Pagination.tsx:29-195 | nothing for at most one page; otherwise the controls and one to five page numbers within range, the current page among them and active |
| FilterBar.UpdateFilters | components/FilterBar.tsx:46-58 | the updates are applied in order to a copy of the query: `null`, `all` and `""` delete, any other value sets |
| FilterBar.UpdatesEffect | components/FilterBar.tsx:46-58 | each key updated has no value when cleared and exactly its new value otherwise; every key not updated keeps its values |
| FilterBar.SearchUpdates | components/FilterBar.tsx:60-78 | the search box always updates exactly `search` and then `tag` |
| FilterBar.SearchEffect | components/FilterBar.tsx:60-82 | an empty term or a bare `#` removes both filters, `#tag` filters by the trimmed tag alone, any other term searches for itself alone; nothing else changes |
| FilterBar.CategoryEffect | components/FilterBar.tsx:146 | a category chip sets that category (or removes the filter for `all`) and keeps every other parameter |
| FilterBar.ClearEffect | components/FilterBar.tsx:80-82 | clearing removes the search and tag filters and keeps everything else |
| TtsRequests.CleanTextShape | n8n/expressions/v2/14_prepare_tts_requests_v2.js:20 | the cleaned line has only single spaces as white space, no newline, and neither starts nor ends with a space |
| TtsRequests.TtsInputShape | n8n/expressions/v2/14_prepare_tts_requests_v2.js:20-28 | `tts_input` is at most 200 characters, a prefix of the cleaned line (all of it when it fits), single-spaced, without newlines and not starting with a space |
| TtsRequests.CleanTextIdempotent | n8n/expressions/v2/14_prepare_tts_requests_v2.js:20 | cleaning a cleaned line changes nothing |
| TtsRequests.TextOr | n8n/expressions/v2/14_prepare_tts_requests_v2.js:16-17 | a falsy value gives the fallback, a non-empty string itself, and any other truthy value fails with a `TypeError` |
| TtsRequests.LineParts | n8n/expressions/v2/14_prepare_tts_requests_v2.js:15-17 | a line fails exactly when it is `null` or `undefined`, or its `en` or `role` is truthy but not a string |
| TtsRequests.LineRequest | n8n/expressions/v2/14_prepare_tts_requests_v2.js:15-39 | a readable line gives exactly one request, built from its text and role |
| TtsRequests.BuildRequestFields | n8n/expressions/v2/14_prepare_tts_requests_v2.js:23-37 | a request keeps every other field of the item, points back at the item, and carries the cleaned text, `troy` exactly for role B (else `hannah`), the line index, the fixed model, format and endpoint, and `expressions/<id>/<line>.wav` |
| TtsRequests.VoiceOfRoles | n8n/expressions/v2/14_prepare_tts_requests_v2.js:17-23 | a missing, empty, `a` or `A` role gets `hannah`; `b` and `B` get `troy` |
| TtsRequests.Entries | n8n/expressions/v2/14_prepare_tts_requests_v2.js:12-15 | a falsy dialogue has no lines, an array its items, and anything else fails with a `TypeError` |
| TtsRequests.ItemRequestsIs | n8n/expressions/v2/14_prepare_tts_requests_v2.js:8-40 | an item succeeds exactly when its dialogue and every line can be read, and then gives one request per line, line `k`'s at `k` |
| TtsRequests.NoDialogueNoRequests | n8n/expressions/v2/14_prepare_tts_requests_v2.js:12 | an item with no dialogue adds no request |
| TtsRequests.OnePerLine | n8n/expressions/v2/14_prepare_tts_requests_v2.js:5-42 | the node fails exactly when some item cannot be read; otherwise it returns exactly one request per line, item by item and line by line |
| TtsRequests.PrepareLines | n8n/expressions/v2/14_prepare_tts_requests_v2.js:15-39 | the inner loop returns the requests of the lines in order, or the failure of the first unreadable line |
| TtsRequests.PrepareTtsRequests | n8n/expressions/code/12_prepare_tts_requests.js:4-41 | the node (both copies) returns the specified requests of all items, or the first failure |
| TtsAggregate.WithoutTemporary | n8n/expressions/code_v2/15_aggregate_tts_results_v2.js:15-24 | the copy has exactly the fields of the request that neither start with `tts_` nor are `storage_path` or `_validation`, with their values |
| TtsAggregate.RemoveTemporary | n8n/expressions/code_v2/15_aggregate_tts_results_v2.js:16-24 | deleting key by key leaves exactly the copy without the request fields |
| TtsAggregate.StripBucketIs | n8n/expressions/code_v2/15_aggregate_tts_results_v2.js:36-38 | a path starting with `speak-mango-en/` loses that prefix once; any other path is kept |
| TtsAggregate.AudioPath | n8n/expressions/code_v2/15_aggregate_tts_results_v2.js:33-38 | the upload's `Key` when truthy, else the request's `storage_path`, normalised; a chosen value that is not a string fails |
| TtsAggregate.SetAudioEffect | n8n/expressions/code_v2/15_aggregate_tts_results_v2.js:41-43 | the write sets `audio_url` of line `idx` when the dialogue is an array and that line an object, and changes nothing else at all |
| TtsAggregate.InjectKeeps | n8n/expressions/code_v2/15_aggregate_tts_results_v2.js:27-44 | the writes keep the record's keys, every field but `dialogue`, the number of lines and which lines are objects, and every line no item targets |
| TtsAggregate.LastWins | n8n/expressions/code_v2/15_aggregate_tts_results_v2.js:27-44 | the path of the last item is the `audio_url` its line ends up with |
| TtsAggregate.AggregateShape | n8n/expressions/code_v2/15_aggregate_tts_results_v2.js:4-46 | no input gives no output; otherwise exactly one record, with the request's fields minus the request fields and all but `dialogue` unchanged |
| TtsAggregate.InjectPaths | n8n/expressions/code_v2/15_aggregate_tts_results_v2.js:27-44 | the loop writes the paths item after item, and fails at the first item whose request is missing or whose path is not a string |
| TtsAggregate.InjectFails | n8n/expressions/code_v2/15_aggregate_tts_results_v2.js:27-44 | a failure part way fails the whole loop with a `TypeError` |
| TtsAggregate.AggregateTtsResults | n8n/expressions/code_v2/15_aggregate_tts_results_v2.js:4-46 | the node returns the specified output or failure |
| TtsGroups.Seed | n8n/expressions/v2/17_aggregate_tts_v2.js:55-60 | a group's seed has exactly the upload's fields other than the request fields and `Key`, with their values |
| TtsGroups.SeedCopy | n8n/expressions/v2/17_aggregate_tts_v2.js:55-61 | the copy and its deletions leave exactly the seed |
| TtsGroups.FirstIndex | n8n/expressions/v2/17_aggregate_tts_v2.js:53 | the index of the first upload of an id: it carries that id and no earlier upload does |
| TtsGroups.SetAudioKeepsSeed | n8n/expressions/v2/17_aggregate_tts_v2.js:74-76 | writing an `audio_url` keeps a record's keys, its fields other than `dialogue` and the number of its lines |
| TtsGroups.GroupedOk | n8n/expressions/v2/17_aggregate_tts_v2.js:49-77 | the grouping pass fails exactly when some upload's request is missing or its path is truthy but not a string, and then with a `TypeError` |
| TtsGroups.GroupedShape | n8n/expressions/v2/17_aggregate_tts_v2.js:49-77 | after the pass the groups are the distinct ids in first-appearance order, each record seeded from that id's first upload |
| TtsGroups.AddUploadWrites | n8n/expressions/v2/17_aggregate_tts_v2.js:64-76 | an upload writes its path into `audio_url` of the line its request names when that line is an object of the group's dialogue, leaves the record as it was otherwise, and leaves every other group alone |
| TtsGroups.AggregateByIdShape | n8n/expressions/v2/17_aggregate_tts_v2.js:5-80 | no input gives no output; otherwise the node fails exactly when some upload is not handled, and succeeds with one record per distinct id, in first-appearance order, each seeded from that id's first upload |
| TtsGroups.OnePerId | n8n/expressions/v2/17_aggregate_tts_v2.js:47-80 | the output has one record per distinct id and no id twice, and every upload's id is among them |
| TtsGroups.GroupedFails | n8n/expressions/v2/17_aggregate_tts_v2.js:49-77 | a failure part way fails the whole pass |
| TtsGroups.AggregateTts | n8n/expressions/v2/17_aggregate_tts_v2.js:5-80 | the node, both passes, returns the specified output or failure |
| TtsGroups.AddUploadStep | n8n/expressions/v2/17_aggregate_tts_v2.js:50-76 | one step of the second pass is the specified group update |
| TtsGroups.ValuesOf | n8n/expressions/v2/17_aggregate_tts_v2.js:80 | the records in insertion order of their ids |
| BackfillMerge.CleanJson | n8n/expressions/backfill_dialogue_translations/dialogue_translation_parse_code.js:5 | the text handed to the JSON parser has no backtick left |
| BackfillMerge.MergeLangsEffect | n8n/expressions/backfill_dialogue_translations/dialogue_translation_parse_code.js:85-89 | exactly the listed languages whose generated value is truthy are overwritten, with that value; every other key keeps its value |
| BackfillMerge.MergeLangsInto | n8n/expressions/backfill_dialogue_translations/batch_dialogue_translation_parse_code.js:50-54 | the loop over the languages performs exactly that overwrite |
| BackfillMerge.SetTranslationsEffect | n8n/expressions/backfill_dialogue_translations/dialogue_translation_parse_code.js:83-89 | writing a turn's translations fails only on a missing turn, or a primitive turn given some language; it changes no other field of the turn, and in an object `translations` (created when falsy) overwrites exactly the listed languages with a truthy value |
| BackfillMerge.Index | n8n/expressions/backfill_dialogue_translations/dialogue_translation_parse_code.js:81 | indexing fails exactly on `null` or `undefined`; an array gives its element, or `undefined` past its end |
| BackfillMerge.MergeTurnsEffect | n8n/expressions/backfill_dialogue_translations/dialogue_translation_parse_code.js:80-91 | the loop over the turns succeeds exactly when every turn goes through, and then turn `i` is merged with generated entry `i`, nothing added or dropped |
| BackfillMerge.TurnKeepsText | n8n/expressions/backfill_dialogue_translations/dialogue_translation_parse_code.js:80-91 | a merged turn keeps every field but `translations`, its `en` and `role` in particular |
| BackfillMerge.MergeTurnsLoop | n8n/expressions/backfill_dialogue_translations/batch_dialogue_translation_parse_code.js:46-56 | the `forEach` over the turns computes the specified merge or its first failure |
| BackfillMerge.MergeTurnsFails | n8n/expressions/backfill_dialogue_translations/dialogue_translation_parse_code.js:80-91 | a failure part way fails the whole loop |
| DialogueBackfill.MergeDialogueErrors | n8n/expressions/backfill_dialogue_translations/dialogue_translation_parse_code.js:56-74 | an input without dialogue fails with its own message, a generated list that is not an array with its own message, and otherwise the merge fails only on a turn that cannot take its entry |
| DialogueBackfill.MergeDialogueEffect | n8n/expressions/backfill_dialogue_translations/dialogue_translation_parse_code.js:69-98 | the merged record drops `text`, keeps every other field but `dialogue`, keeps the dialogue's length and merges each turn with the generated entry of its index |
| DialogueBackfill.DialogueTranslationNode | n8n/expressions/backfill_dialogue_translations/dialogue_translation_parse_code.js:1-108 | the node returns the merged record, or the `Merge Failed` record with the failure's message and the raw text |
| DialogueBackfill.ResultMapOk | n8n/expressions/backfill_dialogue_translations/batch_dialogue_translation_parse_code.js:15 | building the id map fails exactly on a missing entry of the batch |
| DialogueBackfill.ResultMapKeys | n8n/expressions/backfill_dialogue_translations/batch_dialogue_translation_parse_code.js:15 | the map's keys are exactly the ids of the batch's entries |
| DialogueBackfill.ResultMapLast | n8n/expressions/backfill_dialogue_translations/batch_dialogue_translation_parse_code.js:15 | each id maps to the translations of the last entry with that id |
| DialogueBackfill.BatchFailed | n8n/expressions/backfill_dialogue_translations/batch_dialogue_translation_parse_code.js:70-79 | the error output has one record per input item |
| DialogueBackfill.MergeOriginalEffect | n8n/expressions/backfill_dialogue_translations/batch_dialogue_translation_parse_code.js:34-68 | each original is marked `success` exactly when the batch has its id and `missing_in_batch_response` otherwise, loses `text`, and changes at most its dialogue besides |
| DialogueBackfill.MergeOriginalsIs | n8n/expressions/backfill_dialogue_translations/batch_dialogue_translation_parse_code.js:34-68 | the `map` succeeds exactly when every original merges, with one output per original in order |
| DialogueBackfill.BatchFailures | n8n/expressions/backfill_dialogue_translations/batch_dialogue_translation_parse_code.js:8-79 | a parse failure, a non-array, or a missing loop node whose stand-in input is one item without a dialogue turns every input item into an error record with the message, keeping the item's other fields |
| DialogueBackfill.OriginalItems | n8n/expressions/backfill_dialogue_translations/batch_dialogue_translation_parse_code.js:22-32 | the loop node's items when it is found; otherwise the input items, or the "Could not find original items" error exactly when the input is a single item without a dialogue |
| DialogueBackfill.BatchNodeShape | n8n/expressions/backfill_dialogue_translations/batch_dialogue_translation_parse_code.js:22-68 | when the batch merges, the output is one merged record per original, in order: the loop node's items, or the input items when the loop node is not found |
| DialogueBackfill.BatchTranslationNode | n8n/expressions/backfill_dialogue_translations/batch_dialogue_translation_parse_code.js:1-80 | the node returns the specified merge or error records |
| DialogueBackfill.BuildResultMap | n8n/expressions/backfill_dialogue_translations/batch_dialogue_translation_parse_code.js:15 | the loop builds the specified id map |
| DialogueBackfill.MergeOriginalsLoop | n8n/expressions/backfill_dialogue_translations/batch_dialogue_translation_parse_code.js:34-68 | the loop over the originals returns the specified merge or the first failure |
| DialogueBackfill.MergeOriginalsFail | n8n/expressions/backfill_dialogue_translations/batch_dialogue_translation_parse_code.js:34-68 | the first failing original is the failure of the whole `map` |
| UniversalBackfill.MergeSectionEffect | n8n/expressions/backfill_universal/universal_backfill_parse_code.js:36-50 | a section merge fails exactly on a `null` or missing generated value, changes no other field, and in an object section (created when falsy) overwrites exactly the listed languages with a truthy generated value |
| UniversalBackfill.TurnLangs | n8n/expressions/backfill_universal/universal_backfill_parse_code.js:68-69 | a turn's translations take every target language but English |
| UniversalBackfill.UniversalTurnEffect | n8n/expressions/backfill_universal/universal_backfill_parse_code.js:57-77 | a turn's `en` changes only to a truthy generated `en`, no field but `en` and `translations` changes, and the turn is reported missing exactly when its generated turn is truthy without translations |
| UniversalBackfill.UniversalTurnsOk | n8n/expressions/backfill_universal/universal_backfill_parse_code.js:56-79 | the loop over the turns fails exactly when some turn fails, with a `TypeError` |
| UniversalBackfill.UniversalTurnsShape | n8n/expressions/backfill_universal/universal_backfill_parse_code.js:56-79 | the loop keeps the number of turns and reports only existing turns, in increasing order |
| UniversalBackfill.UniversalTurnsAt | n8n/expressions/backfill_universal/universal_backfill_parse_code.js:56-79 | turn `i` is merged with generated turn `i` and reported exactly when it is missing translations |
| UniversalBackfill.WarningTexts | n8n/expressions/backfill_universal/universal_backfill_parse_code.js:76 | one warning per reported turn, naming its index |
| UniversalBackfill.SectionsEffect | n8n/expressions/backfill_universal/universal_backfill_parse_code.js:36-50 | the two section merges fail only on a `null` generated value, change no field but the two sections, and keep every language the generated section does not overwrite |
| UniversalBackfill.UniversalNodeEffect | n8n/expressions/backfill_universal/universal_backfill_parse_code.js:7-93 | without an original the node returns the error record, a parse failure gives the error record with its message, and a merge changes only `meaning`, `content`, `dialogue` and `_warnings` |
| UniversalBackfill.MergeUniversalKeeps | n8n/expressions/backfill_universal/universal_backfill_parse_code.js:30-84 | the merge changes no field but `meaning`, `content`, `dialogue` and `_warnings` |
| UniversalBackfill.UniversalKeepsOtherLangs | n8n/expressions/backfill_universal/universal_backfill_parse_code.js:5-50 | Korean, Japanese and Spanish (any language outside English and the five new ones) keep their values in `meaning` and `content` |
| UniversalBackfill.UniversalDialogue | n8n/expressions/backfill_universal/universal_backfill_parse_code.js:53-79 | with both dialogues arrays the record has one merged turn per original turn, and one warning appended per turn missing translations |
| UniversalBackfill.SupplementaryKeeps | n8n/expressions/backfill_universal/supplementary_backfill_parse_code.js:2-49 | the supplementary merge writes no English, Korean, Japanese or Spanish entry of `meaning` or `content` and changes no field but those and the dialogue |
| UniversalBackfill.SupplementaryDialogue | n8n/expressions/backfill_universal/supplementary_backfill_parse_code.js:54-70 | the dialogue keeps its length, and every turn keeps every field but `translations`, its `en` and `role` in particular |
| UniversalBackfill.MergeSectionInto | n8n/expressions/backfill_universal/universal_backfill_parse_code.js:37-42 | the section block computes the specified section merge |
| UniversalBackfill.AddWarningsPush | n8n/expressions/backfill_universal/universal_backfill_parse_code.js:75-76 | one more push appends one warning to those pushed so far |
| UniversalBackfill.AddWarningsDialogue | n8n/expressions/backfill_universal/universal_backfill_parse_code.js:75-76 | the pushes touch only `_warnings` |
| UniversalBackfill.WarningFails | n8n/expressions/backfill_universal/universal_backfill_parse_code.js:75-76 | a push onto a truthy `_warnings` that is not an array fails the whole merge |
| UniversalBackfill.UniversalTurnsLoop | n8n/expressions/backfill_universal/universal_backfill_parse_code.js:56-79 | the `forEach` over the turns, pushes included, computes the specified dialogue merge |
| UniversalBackfill.UniversalBackfillNode | n8n/expressions/backfill_universal/universal_backfill_parse_code.js:1-93 | the node returns the specified merged record or error record |
| UniversalBackfill.SupplementaryBackfillNode | n8n/expressions/backfill_universal/supplementary_backfill_parse_code.js:1-83 | the node returns the specified merged record or error record |
| PromptData.CategoryMapIs | n8n/expressions/v2/04_prepare_prompt_data_v2.js:15-20 | a name is in the category map exactly when some category item has it as a truthy `category`, and it leads to the last such item |
| PromptData.TargetIs | n8n/expressions/v2/04_prepare_prompt_data_v2.js:23-37 | a result whose category names a category item goes to the last item with that name, whatever its `pairedItem` says; any other result goes by `pairedItem`, or to `-1` |
| PromptData.BucketAppend | n8n/expressions/v2/04_prepare_prompt_data_v2.js:23-43 | distributing two runs of results one after the other fills each bucket with the first run's expressions, then the second's |
| PromptData.BucketContents | n8n/expressions/v2/04_prepare_prompt_data_v2.js:40-42 | a bucket holds exactly the truthy expressions of the results whose target is that existing category item |
| PromptData.ExpressionsText | n8n/expressions/v2/04_prepare_prompt_data_v2.js:51 | an empty bucket is written `(None)`, a single expression as its own text |
| PromptData.ExpressionsTextSnoc | n8n/expressions/v2/04_prepare_prompt_data_v2.js:51 | one more expression in a non-empty bucket adds `, ` and its text |
| PromptData.PromptRecords | n8n/expressions/v2/04_prepare_prompt_data_v2.js:46-53 | one record per category item, in order, with exactly its `domain`, `category`, `topic` and the list of the expressions placed under it |
| PromptData.BuildCategoryMap | n8n/expressions/v2/04_prepare_prompt_data_v2.js:15-20 | the `forEach` builds the specified category map |
| PromptData.Distribute | n8n/expressions/v2/04_prepare_prompt_data_v2.js:22-43 | the `forEach` over the results leaves one bucket per category item, each the specified bucket |
| PromptData.PreparePromptData | n8n/expressions/v2/04_prepare_prompt_data_v2.js:5-53 | the node returns the specified records |
| AdapterFormat.FormatFields | lib/auth/CustomSupabaseAdapter.ts:10-22 | the copy has exactly the properties that are not `null`; a date-like string that parses becomes that date, and every other value is kept |
| AdapterFormat.StringEntries | lib/auth/CustomSupabaseAdapter.ts:10 | spreading a string gives one property per character, named by its index |
| AdapterFormat.StringEntriesOnlyIndices | lib/auth/CustomSupabaseAdapter.ts:10 | spreading a string gives no property besides those named by an index |
| AdapterFormat.Format | lib/auth/CustomSupabaseAdapter.ts:6-23 | an array keeps its length and has each item formatted; anything else becomes an object of its own properties, formatted |
| AdapterFormat.FormatFieldsIdempotent | lib/auth/CustomSupabaseAdapter.ts:10-22 | formatting the properties a second time changes nothing |
| AdapterFormat.StringEntriesKept | lib/auth/CustomSupabaseAdapter.ts:10-22 | the characters spread out of a string come through formatting unchanged |
| AdapterFormat.StringEntriesShape | lib/auth/CustomSupabaseAdapter.ts:10 | every property spread out of a string is one character |
| AdapterFormat.FormatIdempotent | lib/auth/CustomSupabaseAdapter.ts:6-23 | `format` is idempotent: a row formatted once comes out of a second pass unchanged |
| AdapterFormat.FormatObject | lib/auth/CustomSupabaseAdapter.ts:11-21 | the loop over the entries deletes `null` entries and converts date-like strings, giving the specified object |
| AdapterFormat.FormatValue | lib/auth/CustomSupabaseAdapter.ts:6-23 | `format` computes the specified value, arrays by a recursive `map` |
| StudioImages.StripLeft | scripts/generate_studio_images.py:17 | the left strip never lengthens the text |
| StudioImages.StripRight | scripts/generate_studio_images.py:17 | the right strip never lengthens the text |
| StudioImages.StripLeftShape | scripts/generate_studio_images.py:17 | the left strip removes exactly the longest prefix of characters it drops, leaving a suffix of the input that starts with a kept character |
| StudioImages.StripRightShape | scripts/generate_studio_images.py:17 | the right strip removes exactly the longest suffix of characters it drops, leaving a prefix that ends with a kept character |
| StudioImages.StripShape | scripts/generate_studio_images.py:17 | `strip` keeps a contiguous middle slice of the input whose ends are kept characters, and everything removed before and after it is dropped |
| StudioImages.StripNothing | scripts/generate_studio_images.py:17 | a text whose first and last characters are not dropped is returned unchanged |
| StudioImages.StripWrapped | scripts/generate_studio_images.py:21 | stripping a character off a text wrapped in it gives what stripping the inner text gives |
| StudioImages.StripAppend | scripts/generate_studio_images.py:21 | a trailing occurrence of the stripped character makes no difference |
| StudioImages.UnquoteQuoted | scripts/generate_studio_images.py:21 | a value in double or single quotes loses them, and a value without quotes at its ends is kept |
| StudioImages.CharIndex | scripts/generate_studio_images.py:20 | the index is the first occurrence of the character, or the length when it does not occur |
| StudioImages.ParseLineIs | scripts/generate_studio_images.py:16-21 | a line is skipped exactly when blank or a comment after stripping, fails to unpack exactly when it has no `=`, and otherwise pairs the text before the first `=` with the unquoted rest, assigned exactly when `os.environ` accepts the pair (a non-empty name, no NUL) and refused otherwise |
| StudioImages.ParsedLines | scripts/generate_studio_images.py:16-21 | one parsed entry per line of the file, each the parse of that line |
| StudioImages.ReadLine | scripts/generate_studio_images.py:17-21 | the loop body computes the line's parse, including the environment's refusal of an empty name or a NUL character |
| StudioImages.ApplyFails | scripts/generate_studio_images.py:16-21 | loading fails exactly when some line cannot be unpacked or is refused by the environment, and then at the first such line |
| StudioImages.LoadEnvFails | scripts/generate_studio_images.py:12-21 | `load_env_local` raises exactly when some line is neither blank, a comment nor an accepted assignment, reporting the first one |
| StudioImages.LastAssignment | scripts/generate_studio_images.py:20-21 | the index found assigns the key |
| StudioImages.LastAssignmentIs | scripts/generate_studio_images.py:20-21 | the index found is the last line assigning the key, and none is found exactly when no line assigns it |
| StudioImages.LastAssignmentAt | scripts/generate_studio_images.py:20-21 | a line assigning the key after which no line assigns it is the last assignment |
| StudioImages.ApplyValues | scripts/generate_studio_images.py:20-21 | after a successful load a key holds the value of its last assignment, or keeps its earlier value when no line assigns it |
| StudioImages.LoadEnvValues | scripts/generate_studio_images.py:12-21 | the last line of the file that assigns a key decides its value in the environment |
| StudioImages.LoadEnvUntouched | scripts/generate_studio_images.py:12-21 | a key no line assigns keeps its presence and value from the environment |
| StudioImages.LoadEnvLocal | scripts/generate_studio_images.py:12-21 | the loop over the lines computes the loaded environment or the first line that cannot be unpacked or set |
| StudioImages.EmptyNameRefused | scripts/generate_studio_images.py:20-21 | a line `=x` is split into an empty name and `x`, which the environment refuses |
| StudioImages.PlainAssignment | scripts/generate_studio_images.py:17-21 | a line `A=1` assigns `1` to `A` |
| StudioImages.EmptyNameStopsLoad | scripts/generate_studio_images.py:16-21 | a load of `A=1`, `=x`, `B=2` fails at the second line |
| StudioImages.ApplyFailsAt | scripts/generate_studio_images.py:20-21 | a run that reaches a line that cannot be unpacked or set fails at that line |
| StudioImages.BaseUrl | scripts/generate_studio_images.py:27 | `STUDIO_APP_URL` when set, otherwise `http://localhost:3000` |
| StudioImages.AuthHeaderAccepted | scripts/generate_studio_images.py:38-45 | the Basic header the script sends is accepted by the studio check of the proxy configured with the same credentials, when neither contains `:` and the encoding decodes back |
| StudioImages.DefaultCredentials | scripts/generate_studio_images.py:38-39 | without `ADMIN_USER` and `ADMIN_PASSWORD` the header encodes `admin:speakmango1234` |
| StudioImages.LastSlash | scripts/generate_studio_images.py:65 | the index is the last `/` in the text, or -1 when there is none |
| StudioImages.ExpressionIdIff | scripts/generate_studio_images.py:65-67 | a location yields an id exactly when it ends in `/expressions/` followed by that id, a non-empty text without `/` |
| StudioImages.UrlIdsMissingIff | scripts/generate_studio_images.py:62-63 | the loop over the `<url>` elements raises exactly when some element has no location |
| StudioImages.UrlIdsHas | scripts/generate_studio_images.py:62-67 | every location that yields an id contributes it to the result |
| StudioImages.UrlIdsOnly | scripts/generate_studio_images.py:62-67 | every id in the result comes from the location of some element |
| StudioImages.UrlIdsAppend | scripts/generate_studio_images.py:62-67 | the ids of consecutive elements are collected in document order |
| StudioImages.UrlIdsMissing | scripts/generate_studio_images.py:63 | an element without a location makes the loop raise |
| StudioImages.SitemapIdsShape | scripts/generate_studio_images.py:47-73 | a 404 yields no id, and every id yielded is a non-empty segment without `/` ending the location of some `<url>` element after `/expressions/` |
| StudioImages.FetchSitemapIds | scripts/generate_studio_images.py:47-73 | `fetch_sitemap_urls` computes the sitemap's ids, empty on every failure path |
| StudioImages.CollectIds | scripts/generate_studio_images.py:61-67 | the loop over the `<url>` elements computes their ids in document order, or no list once an element has no location |
| StudioImages.StudioUrlParts | scripts/generate_studio_images.py:78-82 | after the base URL the page is `/studio/<id>`, followed by `?lang=<lang>` exactly when a language is given |
| StudioImages.OutputPathIs | scripts/generate_studio_images.py:84 | the image of an id goes to `studio_images/<lang>/<id>.png`, or `studio_images/<id>.png` without a language |
| StudioImages.StudioRun | scripts/generate_studio_images.py:118-154 | no expressions exactly when the sitemap yields no id; otherwise one capture per id, in order, each at the id's output path, skipped exactly when that file exists and otherwise visiting the id's studio URL |
| StudioImages.GenerateStudioImages | scripts/generate_studio_images.py:75-154 | `main` computes the run: nothing when the sitemap yields no id, otherwise one capture per id |
| StudioImages.CaptureAll | scripts/generate_studio_images.py:76-153 | one capture per id, in order, each skipping an existing image or visiting the studio page |
| Seo.RemoveParensNone | lib/seo.ts:46 | a meaning without `(` is unchanged by the note removal |
| Seo.RemoveParensNote | lib/seo.ts:46 | a parenthesised note without `)` inside is removed whole, with its parentheses |
| Seo.MeaningsShape | lib/seo.ts:45-49 | every sense taken from the meaning is non-empty and already trimmed |
| Seo.MeaningKeyword | lib/seo.ts:54-60 | a suffix without `{}` gives the sense, a space and the suffix |
| Seo.MeaningKeywordTemplate | lib/seo.ts:54-56 | a suffix with `{}` gives the suffix with the sense in place of its first `{}` |
| Seo.ExpressionKeywords | lib/seo.ts:35-37 | one keyword per expression suffix, in order: the expression, a space and the suffix |
| Seo.SenseKeywords | lib/seo.ts:53-61 | one keyword per meaning suffix, in order, for one sense |
| Seo.AllSenseKeywordsMember | lib/seo.ts:52-62 | every pair of a sense and a meaning suffix contributes its keyword |
| Seo.PushExpressionKeywords | lib/seo.ts:34-38 | the loop appends the expression keywords to the list |
| Seo.PushSenseKeywords | lib/seo.ts:53-61 | the inner loop appends the keywords of one sense |
| Seo.PushMeaningKeywords | lib/seo.ts:52-62 | the outer loop appends the keywords of every sense, sense by sense |
| Seo.GenerateSeoKeywords | lib/seo.ts:7-68 | the method returns the pushed keywords with duplicates dropped, first occurrences kept |
| Seo.KeywordsShape | lib/seo.ts:13-67 | the result has no duplicates, holds exactly the pushed keywords and starts with the dictionary's own keywords, deduplicated, in their order |
| Seo.DedupeExtends | lib/seo.ts:67 | deduplicating a longer list keeps the deduplicated prefix and holds exactly its members once |
| Seo.CategoryKeywordPresent | lib/seo.ts:16-27 | a non-empty category with a non-empty localized keyword under its lower-cased name puts that keyword in the result |
| Seo.ExpressionSuffixPresent | lib/seo.ts:34-38 | every expression suffix puts `<expression> <suffix>` in the result |
| Seo.MeaningSuffixPresent | lib/seo.ts:42-62 | every sense of the meaning and every meaning suffix put their keyword in the result |
| Seo.WithoutTopLevelSeo | lib/seo.ts:18-32 | without a top-level `seo` the result is only the dictionary's keywords, deduplicated |
| JsSet.Add | store/useUserActionStore.ts:58 | `add` gives the old members and the new one, and keeps the members distinct |
| JsSet.DeleteMembers | store/useUserActionStore.ts:56 | `delete` gives the old members but the deleted one, and keeps them distinct |
| JsSet.FromArray | store/useLocalActionStore.ts:28 | `new Set(xs)` holds each element of `xs` exactly once |
| JsSet.DeleteAfterAdd | store/useUserActionStore.ts:55-59 | deleting a member just added restores the set exactly, order included |
| JsSet.FromArrayOfSet | store/useLocalActionStore.ts:28 | copying a set into a new set changes nothing |
| UserActionStore.Store.ReplaceTarget | store/useUserActionStore.ts:45-47 | the target set becomes `new Set(ids)` and the other set, the counter and the flags are unchanged |
| Routes.AppendNew | lib/routes.ts:23-31 | `set` of a name not yet in the query appends it at the end |
| Routes.FilterValues | lib/routes.ts:21-31 | the query's values of a name are those of the category, search and tag parts, in that order |
| FilterBar.OneEffect | components/FilterBar.tsx:49-55 | one update deletes the key when cleared or sets it to exactly the new value, and keeps every other key |
| FilterBar.SearchAndTag | components/FilterBar.tsx:60-82 | a search-and-tag update gives each of the two its outcome and keeps every other key |
| Proxy.JapanesePathLocale | proxy.ts:137-147 | `/ja/expressions/x` carries the locale `ja` and strips to `/expressions/x` |

## Left out

- Wrong JSON types inside records (a number where a string is read, an array where an object is read) are not modelled: the typed views cannot hold them, and the engine's `TypeError` is only a failure, without its message.
- `JSON.parse`, `JSON.stringify` and the fence stripping around them, the regular-expression and `replace` chain of the locale-file parser, and XML parsing in the image script are parameters of the model.
- JavaScript objects are maps: the key order of objects (integer-like keys first) and the `__proto__` key and inherited prototype keys (`in`, `hasOwnProperty`) are not modelled.
- Deep copies (`JSON.parse(JSON.stringify(x))`, `structuredClone`) are the identity on the JSON values; map keys are compared by value, not by reference.
- Console output, `print` and message wording are not modelled; `path.basename` is modelled only for the `.ts` suffix the locale check strips.
- `atob`, base-64 encoding, `Date` parsing and `URLSearchParams` percent-encoding are parameters; `localeCompare` is code-unit order; `toLowerCase` maps ASCII letters only.
- Floating point, audio playback, timers, `sessionStorage`, analytics, randomness (the UUID generators and the random category pick) and static data (the locale dictionaries, mock data and constants) are not part of this model.
- The network, the database, Playwright, `requests`, the asyncio semaphore and the file system are left out; the image script's environment file is given as its lines and the existing images as a set.
- A capture that fails after the page is visited (a 404, a missing capture area, a screenshot error) is not distinguished from a successful one: the model stops at the decision to visit.
- Non-ASCII admin credentials, for which `encode("ascii")` raises, are not modelled.
- A model reply `text` that is not a string (for which `rawText.replace` raises) is not modelled in the backfill nodes: the reply is a string parameter.
- The first loop of `n8n/expressions/v2/17_aggregate_tts_v2.js` (lines 14-44) computes nothing that is used; it is modelled only through the exception its index check can raise.
- The n8n globals (`$input`, `$items`, `this.helpers`) become parameters: the node's input items and the items of the named nodes, `None` where the batch node's lookup of its loop node throws. The `$items("Split In Batches")` lookup of the single-item backfill nodes is left out, because its result is not used.
- A named property written to an array or a date is ignored, like a write to a primitive.
- In the universal backfill the warnings are pushed after the turns are merged; the output is the same as the source's order.
- `new Set(s)` applied to a stored string (which splits it into characters) is treated as unusable storage.
- The free-plan vocabulary lists are modelled over an abstract local list record, because `store/useLocalActionStore.ts` does not declare the `vocabularyLists`, `addToList` and `createList` members the hooks call.
- The quiz option field `label` is named `letter`, since `label` is reserved in Dafny.
- `lib/seo.ts` reads `seo` at the top of the dictionary, while the locale dictionaries keep it under `meta`; the model reads it where the code does, so with the shipped dictionaries only the base keywords come back (`Seo.WithoutTopLevelSeo`).
- `PREMIUM_REQUIRED` in `lib/server/actionUtils.ts` is not part of this model; only the rate-limit use of an undeclared code is.
- ContentRules.ExpressionLeakRule, ContentRules.TranslationLeakErrors, TtsRequests.TtsInput, AdapterFormat.StringEntries and BackfillMerge.Index: string lengths, indices and `substring` bounds count Unicode scalar values, where JavaScript counts UTF-16 code units. The results agree on text without characters beyond U+FFFF (emoji, rare Han characters). On text with them, the `length > 4` test, the 200-unit cut, the one-property-per-unit spread and string indexing differ.
- VocabularyLists.ProToggleInList and VocabularyLists.ProSetDefaultList: each runs as one atomic step. The source awaits the server between its optimistic update and its confirmation or rollback (`hooks/user/useVocabularyLists.ts:124-133` and `:165`), so other calls can interleave there; the model does not capture interleaved calls, or a rollback that overwrites a later update.
- CleanupMeaning.CleanTextDots: stated only for text without `_`, because text that literally contains the ellipsis marker is turned into `...` by the restore step.
- CleanupMeaning.CleanPlainText: stated only for text without `_`, for the same reason.
- CleanupMeaning.EllipsesRestored: stated only for text without `_`, for the same reason.

## Findings

The rest of the model follows the code as written; each corrected member
stands beside it and states what the evidently intended code would do.

| source | as written | input that shows it | evidently intended | confidence | as-written member | corrected member |
|---|---|---|---|---|---|---|
| n8n/expressions/code/11_validate_content.js:371-378 | the addressed name is taken as `match[match.length - 1]`, the last capture group, which for the third and fourth patterns is the keyword (`how`, `what`…), not the name | role B (a man) saying "Mike, how are you?" | the name group is taken, so a man addressing a man's name in these patterns is reported | not executed | AddressCheck.AsWrittenMissesMike | AddressCheck.CorrectedReportsMike |
| lib/server/rateLimiter.ts:116 | the thrown error uses `COMMON_ERROR.RATE_LIMIT_EXCEEDED`, which `types/error.ts:42-44` does not declare, so its message is `undefined` | any request over the limit | an `AppError` whose message is the code `RATE_LIMIT_EXCEEDED` | not executed | AppErrors.RateLimitErrorAsWritten | AppErrors.RateLimitErrorCorrected |
