/**
 * The gender/name consistency rule of the strict validator
 * (n8n/expressions/code/11_validate_content.js:363-395): role A is a woman
 * and must not call her partner Sarah or Emily, role B is a man and must not
 * call his partner Mike or David.  Four case-insensitive regular expressions
 * look for the name being addressed; each is modelled here by a search that
 * returns the capture groups of its leftmost match.
 *
 * As written, the rule reads the name from `match[match.length - 1]`, the
 * last capture group.  For the third and fourth expressions that group is the
 * keyword after the comma ("how", "you", ...), never the name, so a line such
 * as "Mike, how are you?" spoken by role B is never reported.  The model
 * keeps that reading (`AddressedAsWritten`), which the validator uses,
 * proves the consequence, and gives the reading the comments in the source
 * describe (`Addressed`, which takes the name group) beside it.
 */
module AddressCheck {
  import opened Common
  import opened Text
  import opened ContentModel

  const Openers: seq<string> := ["hey", "hi", "hello", "yo", "well", "so", "oh", "ah", "guess"]
  const QuestionWords: seq<string> := ["how", "what", "do", "can", "would", "are", "is"]
  const YouWords: seq<string> := ["you", "your", "do", "did", "can", "could", "would", "will"]
  const FemaleNames: seq<string> := ["sarah", "emily"]
  const MaleNames: seq<string> := ["mike", "david"]

  /** The first alternative of `alts`, in order, that occurs at `i` ignoring case. */
  function AltAt(s: string, i: nat, alts: seq<string>): (r: Option<string>)
    ensures r.Some? ==> r.value in alts && IsAtIgnoreCase(s, r.value, i)
  {
    if alts == [] then None
    else if IsAtIgnoreCase(s, alts[0], i) then Some(alts[0])
    else AltAt(s, i, alts[1..])
  }

  /** `/^(hey|hi|hello|yo|well|so|oh|ah|guess)\s+(\w+)/i`: the second group.
    * No opener is a prefix of another, so at most one alternative can match
    * and the greedy runs need no backtracking. */
  function FirstPattern(s: string, alts: seq<string>): Option<string>
    requires forall k :: 0 <= k < |alts| ==> |alts[k]| > 0
  {
    if alts == [] then None
    else
      var w := alts[0];
      var sp := SpaceRun(s, |w|);
      var n := WordRun(s, |w| + sp);
      if IsAtIgnoreCase(s, w, 0) && sp >= 1 && n >= 1
      then Some(s[|w| + sp..|w| + sp + n])
      else FirstPattern(s, alts[1..])
  }

  predicate IsClosing(c: char) { c == ',' || c == '.' || c == '?' || c == '!' }

  /** `/,\s*(\w+)[,\.\?!]/i`, searching from `p`: the only group. */
  function SecondPattern(s: string, p: nat): Option<string>
    decreases |s| - p
  {
    if p >= |s| then None
    else
      var q := p + 1 + SpaceRun(s, p + 1);
      var n := WordRun(s, q);
      if s[p] == ',' && n >= 1 && q + n < |s| && IsClosing(s[q + n])
      then Some(s[q..q + n])
      else SecondPattern(s, p + 1)
  }

  /** `/(\w+),\s+(kw1|kw2|...)/i` (with `\b` in front when `boundary`),
    * searching from `p`: both groups, the word before the comma and the
    * keyword as it appears in the text. */
  function CommaPattern(s: string, p: nat, keywords: seq<string>, boundary: bool): (r: Option<(string, string)>)
    ensures r.Some? ==> exists k :: 0 <= k < |keywords| && EqualsIgnoreCase(r.value.1, keywords[k])
    decreases |s| - p
  {
    if p >= |s| then None
    else if boundary && p > 0 && IsWordChar(s[p - 1]) then CommaPattern(s, p + 1, keywords, boundary)
    else
      var n := WordRun(s, p);
      if n == 0 || p + n >= |s| || s[p + n] != ',' then CommaPattern(s, p + 1, keywords, boundary)
      else
        var at := p + n + 1 + SpaceRun(s, p + n + 1);
        var kw := AltAt(s, at, keywords);
        if at > p + n + 1 && kw.Some?
        then Some((s[p..p + n], s[at..at + |kw.value|]))
        else CommaPattern(s, p + 1, keywords, boundary)
  }

  /** The lowercased names found by the first two expressions, whose last
    * group is the name. */
  function FirstTwo(en: string): seq<string> {
    var first := FirstPattern(en, Openers);
    var second := SecondPattern(en, 0);
    (if first.Some? then [ToLower(first.value)] else [])
    + (if second.Some? then [ToLower(second.value)] else [])
  }

  /** What the third and fourth expressions contribute as written: their last
    * group, the keyword after the comma. */
  function KeywordGroups(en: string): seq<string> {
    var third := CommaPattern(en, 0, QuestionWords, false);
    var fourth := CommaPattern(en, 0, YouWords, true);
    (if third.Some? then [ToLower(third.value.1)] else [])
    + (if fourth.Some? then [ToLower(fourth.value.1)] else [])
  }

  /** What they contribute when their name group is taken. */
  function NameGroups(en: string): seq<string> {
    var third := CommaPattern(en, 0, QuestionWords, false);
    var fourth := CommaPattern(en, 0, YouWords, true);
    (if third.Some? then [ToLower(third.value.0)] else [])
    + (if fourth.Some? then [ToLower(fourth.value.0)] else [])
  }

  /** The candidates of the four expressions, in order, each lowercased, read
    * from `match[match.length - 1]` as the source does. */
  function AddressedAsWritten(en: string): seq<string> {
    FirstTwo(en) + KeywordGroups(en)
  }

  /** The same candidates with the name group taken from every expression. */
  function Addressed(en: string): seq<string> {
    FirstTwo(en) + NameGroups(en)
  }

  /** The reports for one candidate name. */
  function NameErrors(index: nat, role: string, name: string): seq<Violation> {
    (if role == "A" && name in FemaleNames then [FemaleAddressesFemale(index, name)] else [])
    + (if role == "B" && name in MaleNames then [MaleAddressesMale(index, name)] else [])
  }

  /** The reports for a turn `{role, en}` with both fields present. */
  function GenderErrors(index: nat, role: string, names: seq<string>): seq<Violation> {
    FlatMap(names, name => NameErrors(index, role, name))
  }

  /** A name is reported exactly when it is a candidate and belongs to the
    * speaker's own gender. */
  lemma GenderErrorsExactly(index: nat, role: string, names: seq<string>, v: Violation)
    ensures v in GenderErrors(index, role, names) <==>
      (exists name :: name in names && role == "A" && name in FemaleNames && v == FemaleAddressesFemale(index, name))
      || (exists name :: name in names && role == "B" && name in MaleNames && v == MaleAddressesMale(index, name))
  {
    FlatMapMember(names, name => NameErrors(index, role, name), v);
  }

  /** As written, a keyword group is never one of the four names. */
  lemma KeywordsAreNotNames(w: string)
    requires (exists k :: 0 <= k < |QuestionWords| && EqualsIgnoreCase(w, QuestionWords[k]))
          || (exists k :: 0 <= k < |YouWords| && EqualsIgnoreCase(w, YouWords[k]))
    ensures ToLower(w) !in FemaleNames && ToLower(w) !in MaleNames
  {
    if exists k :: 0 <= k < |QuestionWords| && EqualsIgnoreCase(w, QuestionWords[k]) {
      KeywordsLower(QuestionWords);
      KeywordLowered(w, QuestionWords);
      NoNameAmong(QuestionWords);
    } else {
      KeywordsLower(YouWords);
      KeywordLowered(w, YouWords);
      NoNameAmong(YouWords);
    }
  }

  /** Both keyword lists are written in lowercase. */
  lemma KeywordsLower(kws: seq<string>)
    requires kws == QuestionWords || kws == YouWords
    ensures forall k :: 0 <= k < |kws| ==> IsLowerWord(kws[k])
  {
  }

  /** Neither keyword list holds one of the four names. */
  lemma NoNameAmong(kws: seq<string>)
    requires kws == QuestionWords || kws == YouWords
    ensures forall x :: x in kws ==> x !in FemaleNames && x !in MaleNames
  {
    forall x | x in kws ensures x !in FemaleNames && x !in MaleNames {
      assert |x| <= 5 && (|x| == 4 ==> x[0] != 'm') && (|x| == 5 ==> x[0] == 'w' || x[0] == 'c');
    }
  }

  predicate IsLowerWord(w: string) {
    forall i :: 0 <= i < |w| ==> IsLower(w[i])
  }

  /** A text equal to a lowercase keyword ignoring case lowercases to it. */
  lemma KeywordLowered(w: string, kws: seq<string>)
    requires forall k :: 0 <= k < |kws| ==> IsLowerWord(kws[k])
    requires exists k :: 0 <= k < |kws| && EqualsIgnoreCase(w, kws[k])
    ensures ToLower(w) in kws
  {
    var k :| 0 <= k < |kws| && EqualsIgnoreCase(w, kws[k]);
    LowerOfLower(kws[k]);
  }

  lemma LowerOfLower(w: string)
    requires IsLowerWord(w)
    ensures ToLower(w) == w
  {
  }

  /** As written, only the first two expressions can ever lead to a report:
    * whatever the third and fourth find, the errors are those of the first two. */
  lemma AsWrittenOnlyFirstTwoReport(index: nat, role: string, en: string)
    ensures GenderErrors(index, role, AddressedAsWritten(en)) == GenderErrors(index, role, FirstTwo(en))
  {
    var third := CommaPattern(en, 0, QuestionWords, false);
    var fourth := CommaPattern(en, 0, YouWords, true);
    var tail := KeywordGroups(en);
    var f := name => NameErrors(index, role, name);
    forall k | 0 <= k < |tail| ensures f(tail[k]) == [] {
      if third.Some? && k == 0 {
        KeywordsAreNotNames(third.value.1);
      } else {
        KeywordsAreNotNames(fourth.value.1);
      }
    }
    FlatMapEmpty(tail, f);
    FlatMapAppend(FirstTwo(en), tail, f);
  }

  /** As written, role B saying "Mike, how are you?" (the example the
    * third expression's comment gives) is not reported. */
  lemma AsWrittenMissesMike(index: nat, en: string)
    requires en == "Mike, how are you?"
    ensures GenderErrors(index, "B", AddressedAsWritten(en)) == []
  {
    MikeAsWritten(en);
    NotACandidate(index, "B", "how");
  }

  /** As written, the only candidate is the keyword "how". */
  lemma MikeAsWritten(en: string)
    requires en == "Mike, how are you?"
    ensures AddressedAsWritten(en) == ["how"]
  {
    MikeFacts(en);
    HowIsLower();
    AsWrittenFromGroups(en, "Mike", "how");
  }

  lemma HowIsLower()
    ensures IsLowerWord("how")
  {
    assert "how"[0] == 'h' && "how"[1] == 'o' && "how"[2] == 'w';
  }

  /** When only the third expression matches, its keyword is the only candidate. */
  lemma AsWrittenFromGroups(en: string, name: string, kw: string)
    requires FirstTwo(en) == [] && IsLowerWord(kw)
    requires CommaPattern(en, 0, QuestionWords, false) == Some((name, kw))
    requires CommaPattern(en, 0, YouWords, true) == None
    ensures AddressedAsWritten(en) == [kw]
  {
    LowerOfLower(kw);
  }

  /** A word that is none of the four names is never reported. */
  lemma NotACandidate(index: nat, role: string, name: string)
    requires name !in FemaleNames && name !in MaleNames
    ensures GenderErrors(index, role, [name]) == []
  {
    FlatMapSnoc([], name, n => NameErrors(index, role, n));
    assert [] + [name] == [name];
  }

  /** Taking the name group, the same line is reported as a man addressing a man. */
  lemma CorrectedReportsMike(index: nat, en: string)
    requires en == "Mike, how are you?"
    ensures GenderErrors(index, "B", Addressed(en)) == [MaleAddressesMale(index, "mike")]
  {
    MikeAddressed(en);
    OneMaleCandidate(index, "mike");
  }

  /** With the name groups taken, the only candidate is "mike". */
  lemma MikeAddressed(en: string)
    requires en == "Mike, how are you?"
    ensures Addressed(en) == ["mike"]
  {
    MikeFacts(en);
    LowerMike();
    NamesFromGroups(en, "Mike", "how");
  }

  lemma LowerMike()
    ensures ToLower("Mike") == "mike"
  {
    assert ToLower("Mike")[0] == 'm';
  }

  /** When only the third expression matches, its name group is the only candidate. */
  lemma NamesFromGroups(en: string, name: string, kw: string)
    requires FirstTwo(en) == []
    requires CommaPattern(en, 0, QuestionWords, false) == Some((name, kw))
    requires CommaPattern(en, 0, YouWords, true) == None
    ensures Addressed(en) == [ToLower(name)]
  {
  }

  /** A single male candidate spoken by role B is one report. */
  lemma OneMaleCandidate(index: nat, name: string)
    requires name in MaleNames
    ensures GenderErrors(index, "B", [name]) == [MaleAddressesMale(index, name)]
  {
    FlatMapSnoc([], name, n => NameErrors(index, "B", n));
    assert [] + [name] == [name];
  }

  /** What each expression finds in "Mike, how are you?". */
  lemma MikeFacts(s: string)
    requires s == "Mike, how are you?"
    ensures FirstTwo(s) == []
    ensures CommaPattern(s, 0, QuestionWords, false) == Some(("Mike", "how"))
    ensures CommaPattern(s, 0, YouWords, true) == None
  {
    MikeNoOpener(s);
    MikeNoSecond(s);
    MikeThird(s);
    MikeFourth(s);
  }

  /** No opener starts with 'm'. */
  lemma MikeNoOpener(s: string)
    requires s == "Mike, how are you?"
    ensures FirstPattern(s, Openers) == None
  {
    assert s[0] == 'M';
    NoAltWith(s, 0, Openers);
    NoOpener(s, Openers);
  }

  /** The only comma is followed by " how ", which a space closes. */
  lemma MikeNoSecond(s: string)
    requires s == "Mike, how are you?"
    ensures SecondPattern(s, 0) == None
  {
    assert s[0] == 'M' && s[1] == 'i' && s[2] == 'k' && s[3] == 'e' && s[4] == ',';
    assert s[5] == ' ' && s[6] == 'h' && s[7] == 'o' && s[8] == 'w' && s[9] == ' ';
    assert forall k :: 5 <= k < |s| ==> s[k] != ',';
    assert WordRun(s, 6) == 3;
    assert SpaceRun(s, 5) == 1;
    NoCommaSecond(s, 5);
    assert SecondPattern(s, 4) == SecondPattern(s, 5);
    assert SecondPattern(s, 3) == SecondPattern(s, 4);
    assert SecondPattern(s, 2) == SecondPattern(s, 3);
    assert SecondPattern(s, 1) == SecondPattern(s, 2);
  }

  /** "how" is a question word. */
  lemma MikeThird(s: string)
    requires s == "Mike, how are you?"
    ensures CommaPattern(s, 0, QuestionWords, false) == Some(("Mike", "how"))
  {
    assert s[0] == 'M' && s[1] == 'i' && s[2] == 'k' && s[3] == 'e' && s[4] == ',';
    assert s[5] == ' ' && s[6] == 'h';
    assert WordRun(s, 0) == 4;
    assert SpaceRun(s, 5) == 1;
    assert s[6..9] == "how";
    assert AltAt(s, 6, QuestionWords) == Some("how");
    assert s[0..4] == "Mike";
  }

  /** "how" is not a you-word, and no later word is followed by a comma. */
  lemma MikeFourth(s: string)
    requires s == "Mike, how are you?"
    ensures CommaPattern(s, 0, YouWords, true) == None
  {
    assert s[0] == 'M' && s[1] == 'i' && s[2] == 'k' && s[3] == 'e' && s[4] == ',';
    assert forall k :: 5 <= k < |s| ==> s[k] != ',';
    assert WordRun(s, 0) == 4;
    assert SpaceRun(s, 5) == 1;
    NoAltWith(s, 6, YouWords);
    NoKeywordAfterFirstComma(s, YouWords);
  }

  /** A text opening with a four-character word, a comma and one space, with
    * no keyword after the space and no later comma, has no match. */
  lemma NoKeywordAfterFirstComma(s: string, keywords: seq<string>)
    requires |s| > 6 && WordRun(s, 0) == 4 && s[4] == ',' && SpaceRun(s, 5) == 1
    requires AltAt(s, 6, keywords) == None
    requires forall k :: 5 <= k < |s| ==> s[k] != ','
    ensures CommaPattern(s, 0, keywords, true) == None
  {
    NoCommaPattern(s, 5, keywords, true);
    assert !IsWordChar(s[4]);
    assert CommaPattern(s, 4, keywords, true) == None;
    assert IsWordChar(s[0]) && IsWordChar(s[1]) && IsWordChar(s[2]);
    assert CommaPattern(s, 3, keywords, true) == None;
    assert CommaPattern(s, 2, keywords, true) == None;
    assert CommaPattern(s, 1, keywords, true) == None;
  }

  lemma NoOpener(s: string, alts: seq<string>)
    requires forall k :: 0 <= k < |alts| ==> |alts[k]| > 0
    requires AltAt(s, 0, alts) == None
    ensures FirstPattern(s, alts) == None
    decreases |alts|
  {
    if alts != [] {
      NoOpener(s, alts[1..]);
    }
  }

  lemma NoCommaSecond(s: string, p: nat)
    requires forall k :: p <= k < |s| ==> s[k] != ','
    ensures SecondPattern(s, p) == None
    decreases |s| - p
  {
    if p < |s| {
      NoCommaSecond(s, p + 1);
    }
  }

  lemma NoCommaPattern(s: string, p: nat, keywords: seq<string>, boundary: bool)
    requires forall k :: p <= k < |s| ==> s[k] != ','
    ensures CommaPattern(s, p, keywords, boundary) == None
    decreases |s| - p
  {
    if p < |s| {
      NoCommaPattern(s, p + 1, keywords, boundary);
    }
  }

  /** No alternative matches at `i` when none starts with the lowercased
    * character there. */
  lemma NoAltWith(s: string, i: nat, alts: seq<string>)
    requires i < |s|
    requires forall k :: 0 <= k < |alts| ==> |alts[k]| > 0 && IsLower(alts[k][0]) && alts[k][0] != LowerChar(s[i])
    ensures AltAt(s, i, alts) == None
    decreases |alts|
  {
    if alts != [] {
      NoAltWith(s, i, alts[1..]);
    }
  }
}
