/**
 * `generateSeoKeywords` of `lib/seo.ts`: the keyword list of an expression
 * page.  It starts from the dictionary's comma-separated keywords, adds the
 * localized category keyword, then `<expression> <suffix>` for each
 * expression suffix and, for each sense of the meaning, one keyword per
 * meaning suffix; duplicates are dropped, first occurrences kept.
 *
 * The function reads `seo` at the top of the dictionary, while the
 * dictionaries keep it under `meta`; the model reads it where the code does.
 */
module Seo {
  import opened Common
  import opened Text

  /** `dict.seo`, as the code reads it.  `None` in a field is an absent
    * field (for the suffix lists, also one that is not an array). */
  datatype SeoSection = SeoSection(
    categories: Option<map<string, string>>,
    expressionSuffixes: Option<seq<string>>,
    meaningSuffixes: Option<seq<string>>)

  /** The parts of a dictionary read here: `meta.keywords` and `seo`. */
  datatype Dictionary = Dictionary(keywords: string, seo: Option<SeoSection>)

  /** `meaning.replace(/\([^)]*\)/g, "")`: each `(` with a `)` after it is
    * removed up to and including the first such `)`; a `(` with none after
    * it is kept. */
  function RemoveParens(s: string): string
    decreases |s|
  {
    if s == [] then []
    else if s[0] == '(' && IndexOf(s, ")") > 0 then RemoveParens(s[IndexOf(s, ")") + 1..])
    else [s[0]] + RemoveParens(s[1..])
  }

  /** Text without `(` comes through unchanged. */
  lemma {:induction false} RemoveParensNone(s: string)
    requires '(' !in s
    ensures RemoveParens(s) == s
    decreases |s|
  {
    if s != [] {
      RemoveParensNone(s[1..]);
    }
  }

  /** A parenthesised note goes, and with it everything up to its `)`. */
  lemma RemoveParensNote(note: string, rest: string)
    requires ')' !in note
    ensures RemoveParens("(" + note + ")" + rest) == RemoveParens(rest)
  {
    var s := "(" + note + ")" + rest;
    assert s == ("(" + note) + [')'] + rest;
    FindFromFirst(s, ")", 0);
    assert IsAt(s, ")", |note| + 1);
    forall i | 0 <= i < |note| + 1 ensures !IsAt(s, ")", i) {
      assert s[i..i + 1][0] == s[i];
      if i > 0 {
        assert s[i] == note[i - 1];
      }
    }
    assert IndexOf(s, ")") == |note| + 1;
    assert s[|note| + 2..] == rest;
  }

  /** The senses of a meaning: notes removed, split at `·`, trimmed, blanks dropped. */
  function Meanings(meaning: string): seq<string> {
    Filter(Trimmed(Split(RemoveParens(meaning), "·")), m => |m| > 0)
  }

  function Trimmed(parts: seq<string>): (r: seq<string>)
    ensures |r| == |parts| && forall k :: 0 <= k < |parts| ==> r[k] == Trim(parts[k])
  {
    seq(|parts|, k requires 0 <= k < |parts| => Trim(parts[k]))
  }

  /** Every sense is non-empty and trimmed. */
  lemma MeaningsShape(meaning: string, m: string)
    requires m in Meanings(meaning)
    ensures m != [] && Trim(m) == m
  {
    var pieces := Split(RemoveParens(meaning), "·");
    var parts := Trimmed(pieces);
    FilterMember(parts, m' => |m'| > 0, m);
    var k :| 0 <= k < |parts| && parts[k] == m;
    TrimShape(pieces[k]);
    TrimOfTrimmed(m);
  }

  /** The keyword of one sense and one meaning suffix: the suffix with its
    * first `{}` replaced by the sense, or the sense followed by the suffix. */
  function MeaningKeyword(m: string, suffix: string): (r: string)
    ensures !Contains(suffix, "{}") ==> r == m + " " + suffix
  {
    if Contains(suffix, "{}") then ReplaceFirst(suffix, "{}", m) else m + " " + suffix
  }

  /** A template suffix puts the sense in place of its first `{}`. */
  lemma MeaningKeywordTemplate(m: string, before: string, after: string)
    requires !Contains(before, "{}") && (before == [] || before[|before| - 1] != '{')
    ensures MeaningKeyword(m, before + "{}" + after) == before + m + after
  {
    var s := before + "{}" + after;
    assert IsAt(s, "{}", |before|);
    FindFromFirst(s, "{}", 0);
    ContainsIff(before, "{}");
    forall i | 0 <= i < |before| ensures !IsAt(s, "{}", i) {
      if i + 2 <= |before| {
        assert s[i..i + 2] == before[i..i + 2];
        assert !IsAt(before, "{}", i);
      } else {
        assert s[i..i + 2][0] == s[i] == before[i];
      }
    }
    var i := IndexOf(s, "{}");
    assert i == |before|;
    assert s[..i] == before && s[i + 2..] == after;
  }

  function ExpressionKeywords(expression: string, suffixes: seq<string>): (r: seq<string>)
    ensures |r| == |suffixes| && forall k :: 0 <= k < |suffixes| ==> r[k] == expression + " " + suffixes[k]
  {
    seq(|suffixes|, k requires 0 <= k < |suffixes| => expression + " " + suffixes[k])
  }

  function SenseKeywords(m: string, suffixes: seq<string>): (r: seq<string>)
    ensures |r| == |suffixes| && forall k :: 0 <= k < |suffixes| ==> r[k] == MeaningKeyword(m, suffixes[k])
  {
    seq(|suffixes|, k requires 0 <= k < |suffixes| => MeaningKeyword(m, suffixes[k]))
  }

  /** The keywords of every sense, sense by sense. */
  function AllSenseKeywords(meanings: seq<string>, suffixes: seq<string>): seq<string>
    decreases |meanings|
  {
    if meanings == [] then []
    else AllSenseKeywords(meanings[..|meanings| - 1], suffixes) + SenseKeywords(meanings[|meanings| - 1], suffixes)
  }

  lemma {:induction false} AllSenseKeywordsMember(meanings: seq<string>, suffixes: seq<string>, i: nat, k: nat)
    requires i < |meanings| && k < |suffixes|
    ensures MeaningKeyword(meanings[i], suffixes[k]) in AllSenseKeywords(meanings, suffixes)
    decreases |meanings|
  {
    var init := meanings[..|meanings| - 1];
    if i < |init| {
      AllSenseKeywordsMember(init, suffixes, i, k);
    } else {
      assert SenseKeywords(meanings[i], suffixes)[k] == MeaningKeyword(meanings[i], suffixes[k]);
    }
  }

  /** The localized category keyword, when a non-empty category has one. */
  function CategoryKeyword(dict: Dictionary, category: Option<string>): seq<string> {
    if category.Some? && category.value != [] && dict.seo.Some? && dict.seo.value.categories.Some?
      && ToLower(category.value) in dict.seo.value.categories.value
      && dict.seo.value.categories.value[ToLower(category.value)] != []
    then [dict.seo.value.categories.value[ToLower(category.value)]]
    else []
  }

  /** The keywords before duplicates are dropped, in the order they are pushed. */
  function RawKeywords(dict: Dictionary, expression: string, meaning: string, category: Option<string>): seq<string> {
    Split(dict.keywords, ", ") + CategoryKeyword(dict, category)
    + (if dict.seo.Some? && dict.seo.value.expressionSuffixes.Some?
       then ExpressionKeywords(expression, dict.seo.value.expressionSuffixes.value) else [])
    + (if dict.seo.Some? && dict.seo.value.meaningSuffixes.Some?
       then AllSenseKeywords(Meanings(meaning), dict.seo.value.meaningSuffixes.value) else [])
  }

  /** The `expressionSuffixes.forEach` loop. */
  method PushExpressionKeywords(keywords: seq<string>, expression: string, suffixes: seq<string>) returns (out: seq<string>)
    ensures out == keywords + ExpressionKeywords(expression, suffixes)
  {
    out := keywords;
    var i := 0;
    while i < |suffixes|
      invariant 0 <= i <= |suffixes|
      invariant out == keywords + ExpressionKeywords(expression, suffixes[..i])
    {
      assert ExpressionKeywords(expression, suffixes[..i + 1]) == ExpressionKeywords(expression, suffixes[..i]) + [expression + " " + suffixes[i]];
      out := out + [expression + " " + suffixes[i]];
      i := i + 1;
    }
    assert suffixes[..|suffixes|] == suffixes;
  }

  /** The inner `meaningSuffixes.forEach` loop, for one sense. */
  method PushSenseKeywords(keywords: seq<string>, m: string, suffixes: seq<string>) returns (out: seq<string>)
    ensures out == keywords + SenseKeywords(m, suffixes)
  {
    out := keywords;
    var k := 0;
    while k < |suffixes|
      invariant 0 <= k <= |suffixes|
      invariant out == keywords + SenseKeywords(m, suffixes[..k])
    {
      assert SenseKeywords(m, suffixes[..k + 1]) == SenseKeywords(m, suffixes[..k]) + [MeaningKeyword(m, suffixes[k])];
      if Contains(suffixes[k], "{}") {
        out := out + [ReplaceFirst(suffixes[k], "{}", m)];
      } else {
        out := out + [m + " " + suffixes[k]];
      }
      k := k + 1;
    }
    assert suffixes[..|suffixes|] == suffixes;
  }

  /** The outer `meanings.forEach` loop. */
  method PushMeaningKeywords(keywords: seq<string>, meanings: seq<string>, suffixes: seq<string>) returns (out: seq<string>)
    ensures out == keywords + AllSenseKeywords(meanings, suffixes)
  {
    out := keywords;
    var j := 0;
    while j < |meanings|
      invariant 0 <= j <= |meanings|
      invariant out == keywords + AllSenseKeywords(meanings[..j], suffixes)
    {
      ghost var acc := out;
      assert meanings[..j + 1][..j] == meanings[..j];
      out := PushSenseKeywords(out, meanings[j], suffixes);
      AppendSteps(keywords, AllSenseKeywords(meanings[..j], suffixes), SenseKeywords(meanings[j], suffixes), acc, out);
      j := j + 1;
    }
    assert meanings[..|meanings|] == meanings;
  }

  /** `generateSeoKeywords(dict, expression, meaning, category)`. */
  method GenerateSeoKeywords(dict: Dictionary, expression: string, meaning: string, category: Option<string>)
    returns (result: seq<string>)
    ensures result == Dedupe(RawKeywords(dict, expression, meaning, category))
  {
    var keywords := Split(dict.keywords, ", ");
    ghost var base := keywords;
    if category.Some? && category.value != [] && dict.seo.Some? && dict.seo.value.categories.Some? {
      var categories := dict.seo.value.categories.value;
      var categoryKey := ToLower(category.value);
      if categoryKey in categories && categories[categoryKey] != [] {
        keywords := keywords + [categories[categoryKey]];
      }
    }
    ghost var withCategory := keywords;
    assert withCategory == base + CategoryKeyword(dict, category);
    ghost var exprPart: seq<string> := [];
    ghost var meaningPart: seq<string> := [];
    if dict.seo.Some? {
      var seo := dict.seo.value;
      if seo.expressionSuffixes.Some? {
        keywords := PushExpressionKeywords(keywords, expression, seo.expressionSuffixes.value);
        exprPart := ExpressionKeywords(expression, seo.expressionSuffixes.value);
      }
      ghost var withExpr := keywords;
      if seo.meaningSuffixes.Some? {
        keywords := PushMeaningKeywords(keywords, Meanings(meaning), seo.meaningSuffixes.value);
        meaningPart := AllSenseKeywords(Meanings(meaning), seo.meaningSuffixes.value);
      }
      AppendSteps(withCategory, exprPart, meaningPart, withExpr, keywords);
    }
    assert keywords == withCategory + exprPart + meaningPart;
    result := Dedupe(keywords);
  }

  /** The result lists each keyword once, lists exactly the pushed keywords,
    * and starts with the dictionary's own keywords in their order. */
  lemma KeywordsShape(dict: Dictionary, expression: string, meaning: string, category: Option<string>)
    ensures var result := Dedupe(RawKeywords(dict, expression, meaning, category));
      NoDuplicates(result)
      && (forall v :: v in result <==> v in RawKeywords(dict, expression, meaning, category))
      && Dedupe(Split(dict.keywords, ", ")) <= result
  {
    var raw := RawKeywords(dict, expression, meaning, category);
    var base := Split(dict.keywords, ", ");
    assert raw == base + raw[|base|..];
    DedupeExtends(base, raw[|base|..]);
  }

  lemma DedupeExtends(base: seq<string>, tail: seq<string>)
    ensures NoDuplicates(Dedupe(base + tail))
    ensures forall v :: v in Dedupe(base + tail) <==> v in base + tail
    ensures Dedupe(base) <= Dedupe(base + tail)
  {
    DedupeProperties(base + tail);
    DedupePrefix(base, tail);
  }

  /** The category keyword is present when the dictionary's `seo`
    * has a non-empty one under the lower-cased category. */
  lemma CategoryKeywordPresent(dict: Dictionary, expression: string, meaning: string, c: string)
    requires c != [] && dict.seo.Some? && dict.seo.value.categories.Some?
    requires ToLower(c) in dict.seo.value.categories.value && dict.seo.value.categories.value[ToLower(c)] != []
    ensures dict.seo.value.categories.value[ToLower(c)] in Dedupe(RawKeywords(dict, expression, meaning, Some(c)))
  {
    var raw := RawKeywords(dict, expression, meaning, Some(c));
    var base := Split(dict.keywords, ", ");
    assert raw[|base|] == dict.seo.value.categories.value[ToLower(c)];
    DedupeProperties(raw);
  }

  /** Each expression suffix gives `<expression> <suffix>`. */
  lemma ExpressionSuffixPresent(dict: Dictionary, expression: string, meaning: string, category: Option<string>, k: nat)
    requires dict.seo.Some? && dict.seo.value.expressionSuffixes.Some? && k < |dict.seo.value.expressionSuffixes.value|
    ensures expression + " " + dict.seo.value.expressionSuffixes.value[k] in Dedupe(RawKeywords(dict, expression, meaning, category))
  {
    var raw := RawKeywords(dict, expression, meaning, category);
    var pre := Split(dict.keywords, ", ") + CategoryKeyword(dict, category);
    var ex := ExpressionKeywords(expression, dict.seo.value.expressionSuffixes.value);
    assert raw[|pre| + k] == ex[k];
    DedupeProperties(raw);
  }

  /** Each sense and meaning suffix give their keyword. */
  lemma MeaningSuffixPresent(dict: Dictionary, expression: string, meaning: string, category: Option<string>, m: string, k: nat)
    requires dict.seo.Some? && dict.seo.value.meaningSuffixes.Some? && k < |dict.seo.value.meaningSuffixes.value|
    requires m in Meanings(meaning)
    ensures MeaningKeyword(m, dict.seo.value.meaningSuffixes.value[k]) in Dedupe(RawKeywords(dict, expression, meaning, category))
  {
    var suffixes := dict.seo.value.meaningSuffixes.value;
    var raw := RawKeywords(dict, expression, meaning, category);
    var i :| 0 <= i < |Meanings(meaning)| && Meanings(meaning)[i] == m;
    AllSenseKeywordsMember(Meanings(meaning), suffixes, i, k);
    DedupeProperties(raw);
  }

  /** With `seo` where the dictionaries keep it, under `meta`, the top-level
    * read finds nothing and only the dictionary's keywords come back. */
  lemma WithoutTopLevelSeo(dict: Dictionary, expression: string, meaning: string, category: Option<string>)
    requires dict.seo.None?
    ensures Dedupe(RawKeywords(dict, expression, meaning, category)) == Dedupe(Split(dict.keywords, ", "))
  {
    var base := Split(dict.keywords, ", ");
    assert CategoryKeyword(dict, category) == [];
    assert RawKeywords(dict, expression, meaning, category) == base + [] + [] + [];
    assert base + [] + [] + [] == base;
  }
}
