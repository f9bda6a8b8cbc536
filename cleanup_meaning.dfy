/**
 * The n8n step `n8n/expressions/code/10_cleanup_meaning.js`: for every
 * input item, rewrite the punctuation of each target-language meaning in
 * place.  Full stops go, except those of an ellipsis `...`; semicolons
 * become the separator ` · `; and the blanks around a separator collapse
 * to one space on each side.
 */
module CleanupMeaning {
  import opened Common
  import opened Text

  const TargetLangs: seq<string> := ["en", "ko", "ja", "es", "fr", "de", "ru", "zh", "ar"]

  /** The placeholder an ellipsis is parked under while full stops go. */
  const Marker: string := "___ELLIPSIS___"

  const Ellipsis: string := "..."

  /** U+00B7 MIDDLE DOT. */
  const MiddleDot: char := 0xB7 as char

  /** `" · "`. */
  const Separator: string := [' ', MiddleDot, ' ']

  /** A value of the `meaning` object: a string, or anything else. */
  datatype Value = Text(s: string) | NonText

  /** An input item's `json`, as far as this step looks at it: its `meaning`
    * object, `None` when absent or falsy. */
  datatype Item = Item(meaning: Option<map<string, Value>>)

  // --------------------------------------------------------------- the text

  /** `text.replace(/\s+·\s+/g, " · ")`.  A blank that begins a run followed
    * by `·` and at least one more blank starts a match, which takes both
    * runs whole; moving one blank on inside a run finds the same ending and
    * fails the same way, so the scan can go one character at a time. */
  function CollapseSeparators(s: string): string
    decreases |s|
  {
    if s == [] then []
    else
      var n := SpaceRun(s, 0);
      if n > 0 && n < |s| && s[n] == MiddleDot && SpaceRun(s, n + 1) > 0
      then Separator + CollapseSeparators(s[n + 1 + SpaceRun(s, n + 1)..])
      else [s[0]] + CollapseSeparators(s[1..])
  }

  /** The five rewrites of one meaning text, in the order they run. */
  function CleanText(text: string): string {
    var marked := ReplaceAll(text, Ellipsis, Marker);
    var undotted := ReplaceAll(marked, ".", "");
    var restored := ReplaceAll(undotted, Marker, Ellipsis);
    var separated := ReplaceAll(restored, ";", Separator);
    CollapseSeparators(separated)
  }

  // ------------------------------------------------------------ full stops

  /** What the first three rewrites are for: keep every `...` (taken
    * leftmost), drop every other `.`. */
  function KeepEllipses(s: string): string
    decreases |s|
  {
    if s == [] then []
    else if IsAt(s, Ellipsis, 0) then Ellipsis + KeepEllipses(s[3..])
    else if s[0] == '.' then KeepEllipses(s[1..])
    else [s[0]] + KeepEllipses(s[1..])
  }

  /** The characters of a text other than full stops, in order. */
  function NonDots(s: string): string
    decreases |s|
  {
    if s == [] then [] else (if s[0] == '.' then [] else [s[0]]) + NonDots(s[1..])
  }

  /** Removing full stops from text that has none in front leaves that text. */
  lemma {:induction false} UndotPrefix(a: string, x: string)
    requires '.' !in a
    ensures ReplaceAll(a + x, ".", "") == a + ReplaceAll(x, ".", "")
    decreases |a|
  {
    if a == [] {
      assert a + x == x;
    } else {
      var s := a + x;
      assert s[1..] == a[1..] + x;
      assert s[..1] == [a[0]];
      UndotPrefix(a[1..], x);
      assert a == [a[0]] + a[1..];
    }
  }

  lemma RestoreMarker(y: string)
    ensures ReplaceAll(Marker + y, Marker, Ellipsis) == Ellipsis + ReplaceAll(y, Marker, Ellipsis)
  {
    assert (Marker + y)[..|Marker|] == Marker;
    assert (Marker + y)[|Marker|..] == y;
  }

  lemma RestoreOther(c: char, y: string)
    requires c != '_'
    ensures ReplaceAll([c] + y, Marker, Ellipsis) == [c] + ReplaceAll(y, Marker, Ellipsis)
  {
    assert ([c] + y)[1..] == y;
    if |Marker| <= |[c] + y| {
      assert ([c] + y)[..|Marker|][0] == c;
    }
  }

  lemma UndotChar(c: char, y: string)
    ensures ReplaceAll([c] + y, ".", "") == (if c == '.' then [] else [c]) + ReplaceAll(y, ".", "")
  {
    assert ([c] + y)[1..] == y;
    assert ([c] + y)[..1] == [c];
  }

  /** For text without underscores, parking each ellipsis under the marker,
    * deleting every full stop and restoring the marker keeps exactly the
    * ellipses. */
  lemma {:induction false} EllipsesRestored(text: string)
    requires '_' !in text
    ensures ReplaceAll(ReplaceAll(ReplaceAll(text, Ellipsis, Marker), ".", ""), Marker, Ellipsis) ==
      KeepEllipses(text)
    decreases |text|
  {
    if text != [] {
      if IsAt(text, Ellipsis, 0) {
        var rest := ReplaceAll(text[3..], Ellipsis, Marker);
        assert ReplaceAll(text, Ellipsis, Marker) == Marker + rest;
        UndotPrefix(Marker, rest);
        RestoreMarker(ReplaceAll(rest, ".", ""));
        EllipsesRestored(text[3..]);
      } else {
        var c := text[0];
        var rest := ReplaceAll(text[1..], Ellipsis, Marker);
        assert ReplaceAll(text, Ellipsis, Marker) == [c] + rest;
        UndotChar(c, rest);
        assert '_' !in text[1..] && c != '_';
        EllipsesRestored(text[1..]);
        if c != '.' {
          var u := ReplaceAll(rest, ".", "");
          assert ReplaceAll(ReplaceAll(text, Ellipsis, Marker), ".", "") == [c] + u;
          RestoreOther(c, u);
          assert KeepEllipses(text) == [c] + KeepEllipses(text[1..]);
        } else {
          var u := ReplaceAll(rest, ".", "");
          assert [] + u == u;
          assert ReplaceAll(ReplaceAll(text, Ellipsis, Marker), ".", "") == u;
          assert KeepEllipses(text) == KeepEllipses(text[1..]);
        }
      }
    }
  }

  /** The scan restarts cleanly after text that does not end in a full stop. */
  lemma {:induction false} KeepSplit(a: string, x: string)
    requires a == [] || a[|a| - 1] != '.'
    ensures KeepEllipses(a + x) == KeepEllipses(a) + KeepEllipses(x)
    decreases |a|
  {
    if a == [] {
      assert a + x == x;
    } else if |a| >= 3 && IsAt(a, Ellipsis, 0) {
      KeepHeadEllipsis(a, x);
      KeepSplit(a[3..], x);
      Assoc(Ellipsis, KeepEllipses(a[3..]), KeepEllipses(x));
    } else {
      KeepHeadChar(a, x);
      KeepSplit(a[1..], x);
      Assoc(if a[0] == '.' then [] else [a[0]], KeepEllipses(a[1..]), KeepEllipses(x));
    }
  }

  lemma KeepHeadEllipsis(a: string, x: string)
    requires |a| >= 3 && IsAt(a, Ellipsis, 0)
    ensures KeepEllipses(a + x) == Ellipsis + KeepEllipses(a[3..] + x)
  {
    var s := a + x;
    assert s[..3] == a[..3];
    assert s[3..] == a[3..] + x;
  }

  lemma KeepHeadChar(a: string, x: string)
    requires a != [] && a[|a| - 1] != '.' && !(|a| >= 3 && IsAt(a, Ellipsis, 0))
    ensures KeepEllipses(a) == (if a[0] == '.' then [] else [a[0]]) + KeepEllipses(a[1..])
    ensures KeepEllipses(a + x) == (if a[0] == '.' then [] else [a[0]]) + KeepEllipses(a[1..] + x)
  {
    var s := a + x;
    assert !IsAt(s, Ellipsis, 0) by {
      if |a| >= 3 {
        assert s[..3] == a[..3];
      } else if |s| >= 3 {
        assert s[..3][|a| - 1] == a[|a| - 1];
      }
    }
    assert s[1..] == a[1..] + x;
  }

  /** Every `...` survives the cleanup; a full stop that is not next to
    * another one disappears. */
  lemma EllipsisKept(a: string, b: string)
    requires a == [] || a[|a| - 1] != '.'
    ensures KeepEllipses(a + Ellipsis + b) == KeepEllipses(a) + Ellipsis + KeepEllipses(b)
  {
    KeepSplit(a, Ellipsis + b);
    assert (Ellipsis + b)[..3] == Ellipsis;
    assert (Ellipsis + b)[3..] == b;
    assert KeepEllipses(Ellipsis + b) == Ellipsis + KeepEllipses(b);
    Assoc(a, Ellipsis, b);
    Assoc(KeepEllipses(a), Ellipsis, KeepEllipses(b));
  }

  lemma LoneDotDropped(a: string, b: string)
    requires a == [] || a[|a| - 1] != '.'
    requires b == [] || b[0] != '.'
    ensures KeepEllipses(a + "." + b) == KeepEllipses(a) + KeepEllipses(b)
  {
    var d := "." + b;
    KeepSplit(a, d);
    assert d[0] == '.' && d[1..] == b;
    assert !IsAt(d, Ellipsis, 0) by {
      if |d| >= 3 {
        assert d[..3][1] == b[0];
      }
    }
    assert KeepEllipses(d) == KeepEllipses(b);
    Assoc(a, ".", b);
  }

  /** No character other than a full stop is lost or added, and full stops
    * remain only where the text had an ellipsis. */
  lemma {:induction false} KeepEllipsesNonDots(s: string)
    ensures NonDots(KeepEllipses(s)) == NonDots(s)
    ensures '.' in KeepEllipses(s) ==> Contains(s, Ellipsis)
    decreases |s|
  {
    if s != [] {
      if IsAt(s, Ellipsis, 0) {
        KeepEllipsesNonDots(s[3..]);
        NonDotsAppend(Ellipsis, KeepEllipses(s[3..]));
        assert s == s[..3] + s[3..];
        NonDotsAppend(s[..3], s[3..]);
        ContainsIff(s, Ellipsis);
      } else {
        KeepEllipsesNonDots(s[1..]);
        if s[0] != '.' {
          assert ([s[0]] + KeepEllipses(s[1..]))[1..] == KeepEllipses(s[1..]);
        }
        if Contains(s[1..], Ellipsis) {
          ContainsInTail(s, Ellipsis);
        }
      }
    }
  }

  lemma {:induction false} NonDotsAppend(a: string, b: string)
    ensures NonDots(a + b) == NonDots(a) + NonDots(b)
    decreases |a|
  {
    if a == [] {
      assert a + b == b;
    } else {
      var s := a + b;
      assert s[0] == a[0] && s[1..] == a[1..] + b;
      NonDotsAppend(a[1..], b);
      assert NonDots(s) == (if a[0] == '.' then [] else [a[0]]) + NonDots(a[1..] + b);
    }
  }

  // ----------------------------------------------------------- separators

  /** Text without `·` passes the collapse unchanged. */
  lemma {:induction false} CollapseWithoutDot(s: string)
    requires MiddleDot !in s
    ensures CollapseSeparators(s) == s
    decreases |s|
  {
    if s != [] {
      CollapseWithoutDot(s[1..]);
    }
  }

  /** The collapse writes only characters of its input and blanks. */
  lemma {:induction false} CollapseChars(s: string, c: char)
    requires c in CollapseSeparators(s)
    ensures c in s || c == ' '
    decreases |s|
  {
    var n := SpaceRun(s, 0);
    if n > 0 && n < |s| && s[n] == MiddleDot && SpaceRun(s, n + 1) > 0 {
      var rest := s[n + 1 + SpaceRun(s, n + 1)..];
      if c in CollapseSeparators(rest) {
        CollapseChars(rest, c);
      }
    } else if c != s[0] {
      CollapseChars(s[1..], c);
    }
  }

  /** The blank runs on both sides of a `·` become one space each: in front
    * of the first separator, text without `·` and not ending in a blank is
    * kept, and the scan goes on after the blanks that follow the dot. */
  lemma CollapseFirst(u: string, w1: string, w2: string, v: string)
    requires MiddleDot !in u && (u == [] || !IsSpace(u[|u| - 1]))
    requires |w1| > 0 && |w2| > 0
    requires forall k :: 0 <= k < |w1| ==> IsSpace(w1[k])
    requires forall k :: 0 <= k < |w2| ==> IsSpace(w2[k])
    requires v == [] || !IsSpace(v[0])
    ensures CollapseSeparators(u + w1 + [MiddleDot] + w2 + v) == u + Separator + CollapseSeparators(v)
  {
    var r := w1 + [MiddleDot] + w2 + v;
    CollapsePrefix(u, r);
    CollapseAtRun(w1, w2, v);
    Assoc(u, w1 + [MiddleDot] + w2, v);
    Assoc(u, w1 + [MiddleDot], w2);
    Assoc(u, w1, [MiddleDot]);
    Assoc(u, Separator, CollapseSeparators(v));
  }

  /** Text without `·` that does not end in a blank is copied as it is. */
  lemma {:induction false} CollapsePrefix(u: string, r: string)
    requires MiddleDot !in u && (u == [] || !IsSpace(u[|u| - 1]))
    ensures CollapseSeparators(u + r) == u + CollapseSeparators(r)
    decreases |u|
  {
    if u == [] {
      assert u + r == r;
    } else {
      CollapseCopyHead(u, r);
      CollapsePrefix(u[1..], r);
      assert u == [u[0]] + u[1..];
      Assoc([u[0]], u[1..], CollapseSeparators(r));
    }
  }

  lemma CollapseCopyHead(u: string, r: string)
    requires u != [] && MiddleDot !in u && !IsSpace(u[|u| - 1])
    ensures CollapseSeparators(u + r) == [u[0]] + CollapseSeparators(u[1..] + r)
  {
    var s := u + r;
    var n := SpaceRun(s, 0);
    assert n < |u| by {
      assert s[|u| - 1] == u[|u| - 1];
    }
    assert s[n] == u[n];
    CollapsePlain(s);
    assert s[1..] == u[1..] + r;
  }

  /** Where no separator starts, the collapse copies the first character. */
  lemma CollapsePlain(s: string)
    requires s != []
    requires SpaceRun(s, 0) >= |s| || s[SpaceRun(s, 0)] != MiddleDot
    ensures CollapseSeparators(s) == [s[0]] + CollapseSeparators(s[1..])
  {
  }

  lemma CollapseAtRun(w1: string, w2: string, v: string)
    requires |w1| > 0 && |w2| > 0
    requires forall k :: 0 <= k < |w1| ==> IsSpace(w1[k])
    requires forall k :: 0 <= k < |w2| ==> IsSpace(w2[k])
    requires v == [] || !IsSpace(v[0])
    ensures CollapseSeparators(w1 + [MiddleDot] + w2 + v) == Separator + CollapseSeparators(v)
  {
    var s := w1 + [MiddleDot] + w2 + v;
    var n := |w1|;
    assert s[n] == MiddleDot;
    assert IsSpace(s[0]);
    SpaceRunIs(s, 0, n);
    SpaceRunIs(s, n + 1, |w2|);
    assert s[n + 1 + |w2|..] == v;
  }

  /** No semicolon survives the cleanup. */
  lemma NoSemicolonLeft(text: string)
    ensures ';' !in CleanText(text)
  {
    var marked := ReplaceAll(text, Ellipsis, Marker);
    var undotted := ReplaceAll(marked, ".", "");
    var restored := ReplaceAll(undotted, Marker, Ellipsis);
    var separated := ReplaceAll(restored, ";", Separator);
    ReplaceAllCharGone(restored, ';', Separator);
    if ';' in CleanText(text) {
      CollapseChars(separated, ';');
    }
  }

  /** For text without underscores, the full stops of the cleaned text are
    * those of its ellipses: the text is cleaned as if its lone full stops
    * had been dropped and its ellipses kept. */
  lemma CleanTextDots(text: string)
    requires '_' !in text
    ensures CleanText(text) ==
      CollapseSeparators(ReplaceAll(KeepEllipses(text), ";", Separator))
  {
    EllipsesRestored(text);
  }

  /** Dropping full stops adds no character. */
  lemma {:induction false} KeepEllipsesChars(s: string, c: char)
    requires c in KeepEllipses(s)
    ensures c in s
    decreases |s|
  {
    if IsAt(s, Ellipsis, 0) {
      if c in KeepEllipses(s[3..]) {
        KeepEllipsesChars(s[3..], c);
      } else {
        assert s[..3][0] == s[0];
      }
    } else if s[0] == '.' || c != s[0] {
      KeepEllipsesChars(s[1..], c);
    }
  }

  /** Text with no underscore, semicolon or `·` is only rid of its lone full
    * stops. */
  lemma CleanPlainText(text: string)
    requires '_' !in text && ';' !in text && MiddleDot !in text
    ensures CleanText(text) == KeepEllipses(text)
  {
    var kept := KeepEllipses(text);
    EllipsesRestored(text);
    if ';' in kept {
      KeepEllipsesChars(text, ';');
    }
    ContainsChar(kept, ';');
    ReplaceAllAbsent(kept, ";", Separator);
    if MiddleDot in kept {
      KeepEllipsesChars(text, MiddleDot);
    }
    CollapseWithoutDot(kept);
  }

  // -------------------------------------------------------------- records

  /** What the step does to the value under key `lang` of a meaning once the
    * languages `langs` have been visited. */
  function CleanValueFor(langs: seq<string>, lang: string, v: Value): Value {
    if lang in langs && v.Text? then Text(CleanText(v.s)) else v
  }

  /** What the step does to the value under key `lang` of a meaning. */
  function CleanValue(lang: string, v: Value): Value {
    CleanValueFor(TargetLangs, lang, v)
  }

  /** The meaning object after the `TARGET_LANGS` loop. */
  function CleanedMeaning(m: map<string, Value>): map<string, Value> {
    map k | k in m :: CleanValue(k, m[k])
  }

  function CleanItem(it: Item): Item {
    if it.meaning.Some? then Item(Some(CleanedMeaning(it.meaning.value))) else it
  }

  /** The meaning keeps its keys; values under other keys, and values that
    * are not strings, are left as they were; an item without a meaning is
    * left alone. */
  lemma CleanedMeaningKeeps(m: map<string, Value>, k: string)
    ensures CleanedMeaning(m).Keys == m.Keys
    ensures k in m && (k !in TargetLangs || !m[k].Text?) ==> CleanedMeaning(m)[k] == m[k]
    ensures k in m && k in TargetLangs && m[k].Text? ==> CleanedMeaning(m)[k] == Text(CleanText(m[k].s))
  {
  }

  /** The languages are distinct, so visiting one more touches one key. */
  lemma TargetLangsVisit(j: nat)
    requires j < |TargetLangs|
    ensures TargetLangs[j] !in TargetLangs[..j]
    ensures TargetLangs[..j + 1] == TargetLangs[..j] + [TargetLangs[j]]
    ensures forall k, v :: k != TargetLangs[j] ==>
      CleanValueFor(TargetLangs[..j + 1], k, v) == CleanValueFor(TargetLangs[..j], k, v)
  {
    assert TargetLangs[..j + 1] == TargetLangs[..j] + [TargetLangs[j]];
  }

  /** `TARGET_LANGS.forEach(...)` on one meaning object, writing back in place. */
  method CleanLangs(meaning: map<string, Value>) returns (m: map<string, Value>)
    ensures m == CleanedMeaning(meaning)
  {
    m := meaning;
    for j := 0 to |TargetLangs|
      invariant m.Keys == meaning.Keys
      invariant forall k :: k in m ==> m[k] == CleanValueFor(TargetLangs[..j], k, meaning[k])
    {
      var lang := TargetLangs[j];
      TargetLangsVisit(j);
      if lang in m && m[lang].Text? {
        var text := m[lang].s;
        m := m[lang := Text(CleanText(text))];
      }
    }
    assert TargetLangs[..|TargetLangs|] == TargetLangs;
  }

  /** `items.forEach(...)`: every item is rewritten in place, so the items
    * keep their number and order. */
  method CleanupMeanings(items: array<Item>)
    modifies items
    ensures forall k :: 0 <= k < items.Length ==> items[k] == CleanItem(old(items[k]))
  {
    for k := 0 to items.Length
      invariant forall j :: 0 <= j < k ==> items[j] == CleanItem(old(items[j]))
      invariant forall j :: k <= j < items.Length ==> items[j] == old(items[j])
    {
      var data := items[k];
      if data.meaning.Some? {
        var m := CleanLangs(data.meaning.value);
        items[k] := Item(Some(m));
      }
    }
  }
}
