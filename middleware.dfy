/**
 * `middleware.ts`: the older request middleware that picks the interface
 * language from the `Accept-Language` header and hands it to the server
 * components in the `x-locale` request header.  Request headers are a map
 * from lower-case header names to values.
 */
module Middleware {
  import opened Common
  import opened Text

  const SupportedLocales: seq<string> := ["ko", "ja", "es"]

  const DefaultLocale := "ko"

  /** `acceptLanguage.split(",")[0].split("-")[0].toLowerCase()`: the primary
    * subtag of the first list member, as written (the quality weights of
    * section 12.5.4 of RFC 9110 are not looked at). */
  function PreferredLocale(acceptLanguage: string): (r: string)
    ensures ',' !in r && '-' !in r
    ensures r == ToLower(Split(Split(acceptLanguage, ",")[0], "-")[0])
  {
    var first := Split(acceptLanguage, ",")[0];
    var primary := Split(first, "-")[0];
    SplitPiecesFree(acceptLanguage, ",");
    SplitPiecesFree(first, "-");
    assert ',' !in first && '-' !in primary by {
      ContainsChar(first, ',');
      ContainsChar(primary, '-');
    }
    ToLower(primary)
  }

  /** The preferred locale is the lower-cased text before the first `,` and
    * the first `-`: a header starting with `ja-JP` prefers `ja`. */
  lemma PreferredLocalePrefix(tag: string, sep: char, rest: string)
    requires ',' !in tag && '-' !in tag
    requires sep == ',' || sep == '-'
    ensures PreferredLocale(tag + [sep] + rest) == ToLower(tag)
  {
    var s := tag + [sep] + rest;
    var first := Split(s, ",")[0];
    if sep == ',' {
      SplitCharCons(tag, rest, ',');
      SplitCharNone(tag, '-');
    } else {
      SplitFirstKeepsPrefix(tag + [sep], rest, ',');
      var r' := first[|tag| + 1..];
      assert first == tag + "-" + r';
      SplitCharCons(tag, r', '-');
    }
  }

  /** A header without `,` or `-` is its own preferred locale, lower-cased. */
  lemma PreferredLocaleBare(tag: string)
    requires ',' !in tag && '-' !in tag
    ensures PreferredLocale(tag) == ToLower(tag)
  {
    SplitCharNone(tag, ',');
    SplitCharNone(tag, '-');
  }

  /** The first piece of a split starts with any prefix free of the separator. */
  lemma SplitFirstKeepsPrefix(p: string, rest: string, c: char)
    requires c !in p
    ensures p <= Split(p + rest, [c])[0]
  {
    NotInPrefix(p, rest, c);
  }

  /** No occurrence of a character starts inside a prefix free of it. */
  lemma NotInPrefix(p: string, rest: string, c: char)
    requires c !in p
    ensures forall k :: 0 <= k < |p| ==> !IsAt(p + rest, [c], k)
  {
    var s := p + rest;
    forall k | 0 <= k < |p|
      ensures !IsAt(s, [c], k)
    {
      assert s[k..k + 1][0] == p[k];
      assert p[k] != c;
    }
  }

  /** `middleware(request)`: the locale to hand on, `ko` unless the header
    * (absent is `None`; an empty header is falsy) prefers another supported
    * locale. */
  function DetectLocale(acceptLanguage: Option<string>): (r: string)
    ensures r in SupportedLocales
    ensures acceptLanguage.None? || acceptLanguage == Some("") ==> r == DefaultLocale
    ensures acceptLanguage.Some? && acceptLanguage.value != "" ==>
      (r == PreferredLocale(acceptLanguage.value) <==> PreferredLocale(acceptLanguage.value) in SupportedLocales)
    ensures acceptLanguage.Some? && acceptLanguage.value != "" && PreferredLocale(acceptLanguage.value) !in SupportedLocales ==>
      r == DefaultLocale
  {
    if acceptLanguage.Some? && acceptLanguage.value != "" && PreferredLocale(acceptLanguage.value) in SupportedLocales
    then PreferredLocale(acceptLanguage.value)
    else DefaultLocale
  }

  /** The request headers passed on: the incoming ones with `x-locale` set. */
  function Middleware(headers: map<string, string>): (out: map<string, string>)
    ensures "x-locale" in out && out["x-locale"] in SupportedLocales
    ensures out["x-locale"] == DetectLocale(if "accept-language" in headers then Some(headers["accept-language"]) else None)
    ensures forall name :: name in headers && name != "x-locale" ==> name in out && out[name] == headers[name]
    ensures out.Keys == headers.Keys + {"x-locale"}
  {
    var acceptLanguage := if "accept-language" in headers then Some(headers["accept-language"]) else None;
    headers["x-locale" := DetectLocale(acceptLanguage)]
  }

  /** A lower-case primary subtag followed by a region is the preferred locale. */
  lemma PreferredLowerTag(tag: string, rest: string)
    requires ',' !in tag && '-' !in tag
    requires forall i :: 0 <= i < |tag| ==> !IsUpper(tag[i])
    ensures PreferredLocale(tag + "-" + rest) == tag
  {
    PreferredLocalePrefix(tag, '-', rest);
    ToLowerOfLower(tag);
  }

  /** A browser preferring `ja-JP` gets Japanese. */
  lemma JapaneseBrowser()
    ensures DetectLocale(Some("ja-JP,ja;q=0.9")) == "ja"
  {
    assert "ja-JP,ja;q=0.9" == "ja" + "-" + "JP,ja;q=0.9";
    PreferredLowerTag("ja", "JP,ja;q=0.9");
  }

  /** A browser preferring `en-US` gets the default, Korean. */
  lemma EnglishBrowser()
    ensures DetectLocale(Some("en-US,en;q=0.9")) == DefaultLocale
  {
    assert "en-US,en;q=0.9" == "en" + "-" + "US,en;q=0.9";
    PreferredLowerTag("en", "US,en;q=0.9");
  }
}
