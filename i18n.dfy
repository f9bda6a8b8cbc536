/**
 * `i18n/index.ts`: the supported interface languages, the default one, the
 * locale type guard and the two lookups built on it.  The dictionaries are
 * static data; a dictionary is identified here by the locale it belongs to.
 */
module I18n {
  import opened Common

  /** `Object.values(SupportedLanguage)`, in declaration order. */
  const SupportedLanguages: seq<string> := ["en", "ko", "ja", "es"]

  const DefaultLocale := "en"

  /** `isSupportedLocale(lang)`: `lang` is a string (not `null` or
    * `undefined`, written `None`) and one of the supported languages. */
  predicate IsSupportedLocale(lang: Option<string>) {
    lang.Some? && lang.value in SupportedLanguages
  }

  lemma SupportedLocales(lang: Option<string>)
    ensures IsSupportedLocale(lang) <==>
      lang == Some("en") || lang == Some("ko") || lang == Some("ja") || lang == Some("es")
    ensures !IsSupportedLocale(None) && !IsSupportedLocale(Some("fr")) && !IsSupportedLocale(Some("EN"))
    ensures IsSupportedLocale(Some(DefaultLocale))
  {
  }

  /** `getContentLocale(data, locale, fallback)`: the key to read a localized
    * field under.  `data` is `None` when it is `null` or `undefined`; a
    * present object is given by its keys. */
  function GetContentLocale(data: Option<set<string>>, locale: string, fallback: string): (r: string)
    ensures r == fallback || r == locale
    ensures data.None? ==> r == fallback
    ensures locale == fallback ==> r == fallback
    ensures data.Some? && locale != fallback ==> (r == locale <==> locale in data.value)
  {
    if data.None? then fallback
    else if locale == fallback then fallback
    else if locale in data.value then locale
    else fallback
  }

  /** The locale a field is read under is one the data has, unless the
    * fallback itself is chosen. */
  lemma ContentLocaleAvailable(data: set<string>, locale: string, fallback: string)
    ensures var r := GetContentLocale(Some(data), locale, fallback);
      r in data || r == fallback
    ensures fallback in data ==> GetContentLocale(Some(data), locale, fallback) in data
  {
  }

  /** `getDictionary(locale)`: the locale whose dictionary is returned, the
    * locale itself when it has one and English otherwise. */
  function GetDictionary(locale: string): (r: string)
    ensures r in SupportedLanguages
    ensures r == locale <==> locale in SupportedLanguages
    ensures locale !in SupportedLanguages ==> r == DefaultLocale
  {
    if locale in SupportedLanguages then locale else "en"
  }

  /** Looking the dictionary up again with the locale it belongs to gives it back. */
  lemma GetDictionaryIdempotent(locale: string)
    ensures GetDictionary(GetDictionary(locale)) == GetDictionary(locale)
    ensures GetDictionary(locale) == locale <==> IsSupportedLocale(Some(locale))
  {
  }
}
