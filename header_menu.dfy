/**
 * Locale handling in the header menu: the locale defaulting rule, the site
 * URL prefix built from a per-locale table, and the translation function
 * with its fallback from the locale's table to English to the key itself.
 */
module HeaderMenu {
  import opened JsValues

  /** The site root, with no locale path. */
  const SiteBase := "https://www.onlyoffice.com"

  /** The per-locale path table of `hrefLang`; a locale missing here gets "/" + itself. */
  const SitePrefixes: map<string, string> := map[
    "en" := "", "el" := "", "hi" := "", "ar" := "", "sr" := "", "hy" := "",
    "zh-hans" := "/zh", "pt-br" := "/pt"]

  /** The locales whose pages are served from the site root. */
  const RootLocales: set<string> := {"en", "el", "hi", "ar", "sr", "hy"}

  /**
   * `currentLocale`: the `locale` property when it is truthy, "en" when it is
   * undefined or empty. The result is never empty.
   */
  function CurrentLocale(locale: Option<string>): (current: string)
    ensures current != ""
    ensures locale == Some(current) || current == "en"
    ensures Truthy(locale) ==> locale == Some(current)
  {
    if Truthy(locale) then locale.value else "en"
  }

  /**
   * The key under which `t` looks a locale up: the two regional variants
   * "zh-hans" and "pt-br" use the table of their language, "zh" and "pt".
   * The key is always a prefix of the locale.
   */
  function TranslationKey(currentLocale: string): (tableKey: string)
    ensures tableKey <= currentLocale
    ensures tableKey != currentLocale <==> currentLocale in {"zh-hans", "pt-br"}
  {
    if currentLocale == "zh-hans" then "zh"
    else if currentLocale == "pt-br" then "pt"
    else currentLocale
  }

  /**
   * `hrefLang`: the site root for the root locales; otherwise the root followed
   * by "/" and the same key the translations are looked up under.
   */
  function HrefLang(currentLocale: string): (href: string)
    ensures SiteBase <= href
    ensures href == if currentLocale in RootLocales then SiteBase
                    else SiteBase + "/" + TranslationKey(currentLocale)
  {
    SiteBase + Coalesce(Get(SitePrefixes, currentLocale), "/" + currentLocale)
  }

  /**
   * `t`: the locale's translation when it is present and not empty, else the
   * English one under the same condition, else the key itself. Looking up a
   * locale that has no table fails in the component, and so does reaching
   * the English table when there is none.
   */
  function Translate(locales: map<string, map<string, string>>, currentLocale: string, key: string): (text: string)
    requires TranslationKey(currentLocale) in locales
    requires "en" in locales || Truthy(Get(locales[TranslationKey(currentLocale)], key))
    ensures key != "" ==> text != ""
    ensures || text == key
            || Get(locales[TranslationKey(currentLocale)], key) == Some(text)
            || ("en" in locales && Get(locales["en"], key) == Some(text))
  {
    var own := Get(locales[TranslationKey(currentLocale)], key);
    if Truthy(own) then own.value
    else
      var english := Get(locales["en"], key);
      if Truthy(english) then english.value else key
  }

  /** A missing or empty `locale` property behaves as "en", whose pages sit at the site root. */
  lemma DefaultLocale()
    ensures CurrentLocale(None) == "en" && CurrentLocale(Some("")) == "en"
    ensures HrefLang(CurrentLocale(None)) == SiteBase
  {
  }

  /**
   * The values of `hrefLang`: an entry mapped to "" yields the bare root (it is
   * not replaced by "/" + locale), the two variants map to their language,
   * and every other locale gets "/" + itself.
   */
  lemma HrefLangValues(currentLocale: string)
    ensures currentLocale in {"en", "el", "hi", "ar", "sr", "hy"} ==> HrefLang(currentLocale) == SiteBase
    ensures HrefLang("zh-hans") == SiteBase + "/zh"
    ensures HrefLang("pt-br") == SiteBase + "/pt"
    ensures currentLocale !in SitePrefixes ==> HrefLang(currentLocale) == SiteBase + "/" + currentLocale
  {
  }

  /**
   * Two locales share a site prefix exactly when both are served from the
   * root, or neither is and they share a translation table.
   */
  lemma {:induction false} HrefLangSharedExactly(a: string, b: string)
    ensures HrefLang(a) == HrefLang(b) <==>
      || (a in RootLocales && b in RootLocales)
      || (a !in RootLocales && b !in RootLocales && TranslationKey(a) == TranslationKey(b))
  {
    var ka, kb := TranslationKey(a), TranslationKey(b);
    if a !in RootLocales && b !in RootLocales && HrefLang(a) == HrefLang(b) {
      var n := |SiteBase + "/"|;
      assert HrefLang(a)[n..] == ka;
      assert HrefLang(b)[n..] == kb;
    }
    if (a in RootLocales) != (b in RootLocales) {
      assert |HrefLang(a)| != |HrefLang(b)|;
    }
  }

  /** The three steps of the fallback chain of `t`. */
  lemma TranslateFallback(locales: map<string, map<string, string>>, currentLocale: string, key: string)
    requires TranslationKey(currentLocale) in locales
    requires "en" in locales || Truthy(Get(locales[TranslationKey(currentLocale)], key))
    ensures var own := locales[TranslationKey(currentLocale)];
            key in own && own[key] != "" ==> Translate(locales, currentLocale, key) == own[key]
    ensures var own := locales[TranslationKey(currentLocale)];
            !(key in own && own[key] != "") && key in locales["en"] && locales["en"][key] != "" ==>
              Translate(locales, currentLocale, key) == locales["en"][key]
    ensures var own := locales[TranslationKey(currentLocale)];
            !(key in own && own[key] != "") && !(key in locales["en"] && locales["en"][key] != "") ==>
              Translate(locales, currentLocale, key) == key
  {
  }

  /** "zh-hans" is translated from the "zh" table, so it translates exactly as "zh". */
  lemma TranslateZhHans(locales: map<string, map<string, string>>, key: string)
    requires "zh" in locales
    requires "en" in locales || Truthy(Get(locales["zh"], key))
    ensures Translate(locales, "zh-hans", key) == Translate(locales, "zh", key)
  {
  }

  /** "pt-br" is translated from the "pt" table, so it translates exactly as "pt". */
  lemma TranslatePtBr(locales: map<string, map<string, string>>, key: string)
    requires "pt" in locales
    requires "en" in locales || Truthy(Get(locales["pt"], key))
    ensures Translate(locales, "pt-br", key) == Translate(locales, "pt", key)
  {
  }
}
