/**
 * The character classes the content validators test for, and the
 * "English word" scan behind every `checkEnglishInclusion`.
 *
 * The ranges are those of the validators' REGEX tables (for example
 * n8n/expressions/code/11_validate_content.js:15-32).  The regular
 * expressions there run without the `u` flag, so they see UTF-16 code
 * units; none of the ranges touches a surrogate, so testing Unicode scalar
 * values, as Dafny's `char` holds, gives the same answers.
 */
module Scripts {
  import opened Common
  import opened Text

  predicate IsHangul(c: char) {
    var n := c as int;
    (0xAC00 <= n <= 0xD7AF) || (0x1100 <= n <= 0x11FF) || (0x3130 <= n <= 0x318F)
    || (0xA960 <= n <= 0xA97F) || (0xD7B0 <= n <= 0xD7FF)
  }

  predicate IsKana(c: char) {
    var n := c as int;
    (0x3040 <= n <= 0x309F) || (0x30A0 <= n <= 0x30FF)
  }

  predicate IsHan(c: char) {
    var n := c as int;
    (0x4E00 <= n <= 0x9FCC) || (0x3400 <= n <= 0x4DB5)
  }

  predicate IsCyrillic(c: char) {
    var n := c as int;
    0x0400 <= n <= 0x04FF
  }

  predicate IsArabic(c: char) {
    var n := c as int;
    (0x0600 <= n <= 0x06FF) || (0x0750 <= n <= 0x077F)
  }

  /** The ideographic full stop U+3002. */
  const IdeographicFullStop: char := 0x3002 as char

  datatype Script = Hangul | Kana | Han | Cyrillic | Arabic

  predicate InScript(c: char, sc: Script) {
    match sc
    case Hangul => IsHangul(c)
    case Kana => IsKana(c)
    case Han => IsHan(c)
    case Cyrillic => IsCyrillic(c)
    case Arabic => IsArabic(c)
  }

  /** `REGEX.<script>.test(s)`. */
  predicate HasScript(s: string, sc: Script) {
    exists i :: 0 <= i < |s| && InScript(s[i], sc)
  }

  /** `/[a-zA-Z]/.test(s)`. */
  predicate HasAsciiLetter(s: string) {
    exists i :: 0 <= i < |s| && IsAsciiLetter(s[i])
  }

  // ------------------------------------------- the /[a-zA-Z]{2,}/g scan

  /** Length of the run of ASCII letters at the start of `s`. */
  function LetterRun(s: string): (n: nat)
    ensures n <= |s|
    ensures forall i :: 0 <= i < n ==> IsAsciiLetter(s[i])
    ensures n < |s| ==> !IsAsciiLetter(s[n])
    decreases |s|
  {
    if s == [] || !IsAsciiLetter(s[0]) then 0 else 1 + LetterRun(s[1..])
  }

  predicate AllLetters(w: string) {
    forall j :: 0 <= j < |w| ==> IsAsciiLetter(w[j])
  }

  /** `s.match(/[a-zA-Z]{2,}/g) || []`: the maximal runs of two or more ASCII
    * letters, left to right. */
  function AsciiWords(s: string): (ws: seq<string>)
    ensures forall k :: 0 <= k < |ws| ==> |ws[k]| >= 2 && AllLetters(ws[k])
    decreases |s|
  {
    if s == [] then []
    else if !IsAsciiLetter(s[0]) then AsciiWords(s[1..])
    else
      var n := LetterRun(s);
      (if n >= 2 then [s[..n]] else []) + AsciiWords(s[n..])
  }

  /** `/[a-zA-Z]{2,}/.test(s)`. */
  predicate HasAsciiWord(s: string) {
    exists i :: 0 <= i < |s| - 1 && IsAsciiLetter(s[i]) && IsAsciiLetter(s[i + 1])
  }

  /** The global scan finds nothing exactly when the single test fails. */
  lemma {:induction false} AsciiWordsEmptyIff(s: string)
    ensures AsciiWords(s) == [] <==> !HasAsciiWord(s)
    decreases |s|
  {
    if s != [] {
      if !IsAsciiLetter(s[0]) {
        AsciiWordsEmptyIff(s[1..]);
        ShiftHasAsciiWord(s, 1);
      } else {
        var n := LetterRun(s);
        AsciiWordsEmptyIff(s[n..]);
        if n >= 2 {
          assert IsAsciiLetter(s[0]) && IsAsciiLetter(s[1]);
        } else {
          ShiftHasAsciiWord(s, 1);
        }
      }
    }
  }

  /** Dropping a prefix of `k` characters that cannot start a two-letter pair. */
  lemma ShiftHasAsciiWord(s: string, k: nat)
    requires 1 <= k <= |s|
    requires forall i :: 0 <= i < k && i < |s| - 1 ==> !(IsAsciiLetter(s[i]) && IsAsciiLetter(s[i + 1]))
    ensures HasAsciiWord(s) <==> HasAsciiWord(s[k..])
  {
    if HasAsciiWord(s) {
      var i :| 0 <= i < |s| - 1 && IsAsciiLetter(s[i]) && IsAsciiLetter(s[i + 1]);
      assert s[k..][i - k] == s[i] && s[k..][i - k + 1] == s[i + 1];
    }
    if HasAsciiWord(s[k..]) {
      var i :| 0 <= i < |s[k..]| - 1 && IsAsciiLetter(s[k..][i]) && IsAsciiLetter(s[k..][i + 1]);
      assert s[i + k] == s[k..][i] && s[i + k + 1] == s[k..][i + 1];
    }
  }

  /** `s[i..j]` is a maximal run of ASCII letters. */
  predicate MaximalRun(s: string, i: int, j: int) {
    0 <= i < j <= |s| && AllLetters(s[i..j])
    && (i == 0 || !IsAsciiLetter(s[i - 1]))
    && (j == |s| || !IsAsciiLetter(s[j]))
  }

  /** Every maximal run of at least two letters is found by the scan. */
  lemma {:induction false} AsciiWordsComplete(s: string, i: int, j: int)
    requires MaximalRun(s, i, j) && j - i >= 2
    ensures s[i..j] in AsciiWords(s)
    decreases |s|, 1
  {
    assert s[i] == s[i..j][0];
    if !IsAsciiLetter(s[0]) {
      CompleteAfterSkip(s, i, j);
    } else if i == 0 {
      CompleteAtStart(s, j);
    } else {
      CompleteAfterRun(s, i, j);
    }
  }

  /** The scan skips a leading non-letter. */
  lemma {:induction false} CompleteAfterSkip(s: string, i: int, j: int)
    requires MaximalRun(s, i, j) && j - i >= 2 && 0 < i
    requires !IsAsciiLetter(s[0])
    ensures s[i..j] in AsciiWords(s)
    decreases |s|, 0
  {
    ShiftRun(s, 1, i, j);
    AsciiWordsComplete(s[1..], i - 1, j - 1);
    assert AsciiWords(s) == AsciiWords(s[1..]);
  }

  /** A maximal run at the start is the first word found. */
  lemma CompleteAtStart(s: string, j: int)
    requires MaximalRun(s, 0, j) && j >= 2
    ensures s[0..j] in AsciiWords(s)
  {
    LetterRunIs(s, j);
    assert s[..j] == s[0..j];
    assert s[0] == s[0..j][0];
    assert AsciiWords(s) == [s[..j]] + AsciiWords(s[j..]);
  }

  /** A maximal run after the leading run is found in the rest. */
  lemma {:induction false} CompleteAfterRun(s: string, i: int, j: int)
    requires MaximalRun(s, i, j) && j - i >= 2 && 0 < i
    requires IsAsciiLetter(s[0])
    ensures s[i..j] in AsciiWords(s)
    decreases |s|, 0
  {
    var n := LetterRun(s);
    ShiftRun(s, n, i, j);
    AsciiWordsComplete(s[n..], i - n, j - n);
    assert AsciiWords(s) == (if n >= 2 then [s[..n]] else []) + AsciiWords(s[n..]);
  }

  /** A run of letters ended by a non-letter (or the end) is the leading run. */
  lemma {:induction false} LetterRunIs(s: string, j: nat)
    requires j <= |s| && AllLetters(s[..j]) && (j == |s| || !IsAsciiLetter(s[j]))
    ensures LetterRun(s) == j
    decreases j
  {
    if j > 0 {
      assert s[0] == s[..j][0];
      var rest := s[1..][..j - 1];
      forall t | 0 <= t < j - 1 ensures IsAsciiLetter(rest[t]) {
        assert rest[t] == s[..j][t + 1];
      }
      LetterRunIs(s[1..], j - 1);
    }
  }

  /** Dropping a prefix that ends before a maximal run keeps it maximal. */
  lemma ShiftRun(s: string, k: nat, i: int, j: int)
    requires MaximalRun(s, i, j) && 0 < k <= i
    requires k < i ==> !IsAsciiLetter(s[i - 1])
    ensures MaximalRun(s[k..], i - k, j - k) && s[k..][i - k..j - k] == s[i..j]
  {
    assert s[k..][i - k..j - k] == s[i..j];
    if i - k > 0 {
      assert s[k..][i - k - 1] == s[i - 1];
    }
    if j - k < |s[k..]| {
      assert s[k..][j - k] == s[j];
    }
  }

  /** A maximal run of a suffix is a maximal run of the whole text, unless it
    * starts the suffix right after a letter. */
  lemma UnshiftRun(s: string, k: nat, i: int, j: int)
    requires k <= |s| && MaximalRun(s[k..], i, j)
    requires i == 0 && k > 0 ==> !IsAsciiLetter(s[k - 1])
    ensures MaximalRun(s, i + k, j + k) && s[i + k..j + k] == s[k..][i..j]
  {
    assert s[i + k..j + k] == s[k..][i..j];
    if i > 0 {
      assert s[i + k - 1] == s[k..][i - 1];
    }
    if j + k < |s| {
      assert s[j + k] == s[k..][j];
    }
  }

  /** Every span moved `d` characters to the right. */
  function ShiftSpans(spans: seq<(nat, nat)>, d: nat): (r: seq<(nat, nat)>)
    ensures |r| == |spans|
    ensures forall k :: 0 <= k < |r| ==> r[k] == (spans[k].0 + d, spans[k].1 + d)
  {
    seq(|spans|, k requires 0 <= k < |spans| => (spans[k].0 + d, spans[k].1 + d))
  }

  /** Where the scan's words lie in the text, as `[start, end)` pairs. */
  function WordSpans(s: string): seq<(nat, nat)>
    decreases |s|
  {
    if s == [] then []
    else if !IsAsciiLetter(s[0]) then ShiftSpans(WordSpans(s[1..]), 1)
    else
      var n := LetterRun(s);
      (if n >= 2 then [(0, n)] else []) + ShiftSpans(WordSpans(s[n..]), n)
  }

  /** `sp` places each word of `ws` on a maximal run of at least two
    * letters of `s`. */
  predicate SpansMatch(s: string, sp: seq<(nat, nat)>, ws: seq<string>) {
    |sp| == |ws|
    && forall k :: 0 <= k < |sp| ==>
      MaximalRun(s, sp[k].0, sp[k].1) && sp[k].1 - sp[k].0 >= 2 && ws[k] == s[sp[k].0..sp[k].1]
  }

  /** Each span ends before the next one starts. */
  predicate InTextOrder(sp: seq<(nat, nat)>) {
    forall k :: 0 <= k < |sp| - 1 ==> sp[k].1 < sp[k + 1].0
  }

  /** Spans found in the text after its first `n` characters, moved back into
    * place, keep their properties; after a letter none of them starts at `n`. */
  lemma ShiftSound(s: string, n: nat, rest: seq<(nat, nat)>, ws: seq<string>)
    requires 0 < n <= |s| && SpansMatch(s[n..], rest, ws) && InTextOrder(rest)
    requires IsAsciiLetter(s[n - 1]) ==> n == |s| || !IsAsciiLetter(s[n])
    ensures SpansMatch(s, ShiftSpans(rest, n), ws) && InTextOrder(ShiftSpans(rest, n))
    ensures IsAsciiLetter(s[n - 1]) ==> forall k :: 0 <= k < |rest| ==> 0 < rest[k].0
  {
    forall k | 0 <= k < |rest|
      ensures IsAsciiLetter(s[n - 1]) ==> 0 < rest[k].0
      ensures MaximalRun(s, rest[k].0 + n, rest[k].1 + n)
      ensures s[rest[k].0 + n..rest[k].1 + n] == s[n..][rest[k].0..rest[k].1]
    {
      assert s[n..][rest[k].0] == s[n + rest[k].0];
      if rest[k].0 == 0 {
        assert s[n..][0..rest[k].1][0] == s[n];
      }
      UnshiftRun(s, n, rest[k].0, rest[k].1);
    }
  }

  /** Every word the scan returns is a maximal run of at least two letters
    * of the text, and the words come in text order, each ending before the
    * next starts. With `AsciiWordsComplete` the scan returns exactly the
    * maximal runs of two or more letters, left to right. */
  lemma {:induction false} AsciiWordsSound(s: string)
    ensures SpansMatch(s, WordSpans(s), AsciiWords(s)) && InTextOrder(WordSpans(s))
    decreases |s|
  {
    if s == [] {
    } else if !IsAsciiLetter(s[0]) {
      AsciiWordsSound(s[1..]);
      assert WordSpans(s) == ShiftSpans(WordSpans(s[1..]), 1);
      assert AsciiWords(s) == AsciiWords(s[1..]);
      ShiftSound(s, 1, WordSpans(s[1..]), AsciiWords(s[1..]));
    } else {
      var n := LetterRun(s);
      var rest, ws := WordSpans(s[n..]), AsciiWords(s[n..]);
      AsciiWordsSound(s[n..]);
      ShiftSound(s, n, rest, ws);
      if n >= 2 {
        assert WordSpans(s) == [(0, n)] + ShiftSpans(rest, n);
        assert AsciiWords(s) == [s[..n]] + ws;
        RunAtStart(s, n, rest, ws);
      } else {
        assert WordSpans(s) == ShiftSpans(rest, n);
        assert AsciiWords(s) == ws;
      }
    }
  }

  /** The leading run of two or more letters, placed on `[0, n)`, goes in
    * front of the spans found after it. */
  lemma RunAtStart(s: string, n: nat, rest: seq<(nat, nat)>, ws: seq<string>)
    requires n == LetterRun(s) && n >= 2
    requires SpansMatch(s, ShiftSpans(rest, n), ws) && InTextOrder(ShiftSpans(rest, n))
    requires forall k :: 0 <= k < |rest| ==> 0 < rest[k].0
    ensures SpansMatch(s, [(0, n)] + ShiftSpans(rest, n), [s[..n]] + ws)
    ensures InTextOrder([(0, n)] + ShiftSpans(rest, n))
  {
    assert AllLetters(s[0..n]) by {
      forall t | 0 <= t < n ensures IsAsciiLetter(s[0..n][t]) {
        assert s[0..n][t] == s[t];
      }
    }
    assert s[..n] == s[0..n];
    assert MaximalRun(s, 0, n);
  }

  // --------------------------------------------- checkEnglishInclusion

  /** An allow-list entry equal to `w` ignoring case. */
  predicate IsAllowedTerm(w: string, allowed: seq<string>) {
    exists k :: 0 <= k < |allowed| && EqualsIgnoreCase(allowed[k], w)
  }

  /** A word `checkEnglishInclusion` reports: not allow-listed and not capital-initial. */
  predicate IsLeak(w: string, allowed: seq<string>) {
    !IsAllowedTerm(w, allowed) && !(|w| > 0 && IsUpper(w[0]))
  }

  /** The word filter of `checkEnglishInclusion`. */
  function LeakedWords(text: string, allowed: seq<string>): seq<string> {
    Filter(AsciiWords(text), w => IsLeak(w, allowed))
  }

  /** The words reported are exactly the scanned words that are neither
    * allow-listed (ignoring case) nor capital-initial. */
  lemma LeakedWordsExactly(text: string, allowed: seq<string>, w: string)
    ensures w in LeakedWords(text, allowed) <==>
      w in AsciiWords(text) && !IsAllowedTerm(w, allowed) && !IsUpper(w[0])
    ensures w in LeakedWords(text, allowed) ==> |w| >= 2 && AllLetters(w)
  {
    FilterMember(AsciiWords(text), w => IsLeak(w, allowed), w);
  }

  /** Text without two adjacent ASCII letters never reports a word. */
  lemma NoWordsNoLeak(text: string, allowed: seq<string>)
    requires !HasAsciiWord(text)
    ensures LeakedWords(text, allowed) == []
  {
    AsciiWordsEmptyIff(text);
  }

  /** `allowed.some(term => term.toLowerCase() === word.toLowerCase())`. */
  method IsAllowed(word: string, allowed: seq<string>) returns (b: bool)
    ensures b <==> IsAllowedTerm(word, allowed)
  {
    b := false;
    var k := 0;
    while k < |allowed| && !b
      invariant 0 <= k <= |allowed|
      invariant b <==> exists j :: 0 <= j < k && EqualsIgnoreCase(allowed[j], word)
    {
      b := ToLower(allowed[k]) == ToLower(word);
      k := k + 1;
    }
  }

  /** The word filter of `checkEnglishInclusion`: `matches.filter(...)`. */
  method FilterLeaks(matches: seq<string>, allowed: seq<string>) returns (invalid: seq<string>)
    ensures invalid == Filter(matches, w => IsLeak(w, allowed))
  {
    invalid := [];
    var i := 0;
    while i < |matches|
      invariant 0 <= i <= |matches|
      invariant invalid == Filter(matches[..i], w => IsLeak(w, allowed))
    {
      var word := matches[i];
      FilterSnoc(matches[..i], word, w => IsLeak(w, allowed));
      assert matches[..i + 1] == matches[..i] + [word];
      var ok := IsAllowed(word, allowed);
      if !ok && !(|word| > 0 && IsUpper(word[0])) {
        invalid := invalid + [word];
      }
      i := i + 1;
    }
    assert matches[..i] == matches;
  }
}
