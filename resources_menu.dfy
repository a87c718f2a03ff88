/**
 * The resources section of the header menu: the blog URL built from a
 * second per-locale table, and the choice between the Chinese plugin
 * competition block and the second blog card.
 */
module ResourcesMenu {
  import opened JsValues
  import HeaderMenu

  /** The blog root, with no locale path. */
  const BlogBase := "https://www.onlyoffice.com/blog"

  /** The per-locale path table of `blogHrefLang`; a locale missing here gets "/" + itself. */
  const BlogSuffixes: map<string, string> := map[
    "en" := "", "ru" := "", "zh" := "/zh-hans", "pt" := "/pt-br"]

  /** The locales whose posts are served from the blog root. */
  const BlogRootLocales: set<string> := {"en", "ru"}

  /**
   * The locale the blog uses for a site locale: the blog names the Chinese
   * and Portuguese sections by their regional variants. A locale and its blog
   * locale are translated from the same table.
   */
  function BlogLocale(currentLocale: string): (blogLocale: string)
    ensures HeaderMenu.TranslationKey(blogLocale) == HeaderMenu.TranslationKey(currentLocale)
    ensures currentLocale <= blogLocale
  {
    if currentLocale == "zh" then "zh-hans"
    else if currentLocale == "pt" then "pt-br"
    else currentLocale
  }

  /**
   * `blogHrefLang`: the blog root for "en" and "ru"; otherwise the root
   * followed by "/" and the blog locale.
   */
  function BlogHrefLang(currentLocale: string): (href: string)
    ensures BlogBase <= href
    ensures href == if currentLocale in BlogRootLocales then BlogBase
                    else BlogBase + "/" + BlogLocale(currentLocale)
  {
    BlogBase + Coalesce(Get(BlogSuffixes, currentLocale), "/" + currentLocale)
  }

  /**
   * The values of `blogHrefLang`: an entry mapped to "" yields the bare blog
   * root, "zh" and "pt" get their regional variants, and every other locale
   * gets "/" + itself.
   */
  lemma BlogHrefLangValues(currentLocale: string)
    ensures BlogHrefLang("en") == BlogBase && BlogHrefLang("ru") == BlogBase
    ensures BlogHrefLang("zh") == BlogBase + "/zh-hans"
    ensures BlogHrefLang("pt") == BlogBase + "/pt-br"
    ensures currentLocale !in BlogSuffixes ==> BlogHrefLang(currentLocale) == BlogBase + "/" + currentLocale
  {
  }

  /** A language and its regional variant lead to the same blog section. */
  lemma BlogVariantsShareUrl()
    ensures BlogHrefLang("zh") == BlogHrefLang("zh-hans")
    ensures BlogHrefLang("pt") == BlogHrefLang("pt-br")
  {
  }

  /**
   * Two locales share a blog URL exactly when both are served from the blog
   * root, or neither is and they have the same blog locale.
   */
  lemma {:induction false} BlogHrefLangSharedExactly(a: string, b: string)
    ensures BlogHrefLang(a) == BlogHrefLang(b) <==>
      || (a in BlogRootLocales && b in BlogRootLocales)
      || (a !in BlogRootLocales && b !in BlogRootLocales && BlogLocale(a) == BlogLocale(b))
  {
    if a !in BlogRootLocales && b !in BlogRootLocales && BlogHrefLang(a) == BlogHrefLang(b) {
      var n := |BlogBase + "/"|;
      assert BlogHrefLang(a)[n..] == BlogLocale(a);
      assert BlogHrefLang(b)[n..] == BlogLocale(b);
    }
    if (a in BlogRootLocales) != (b in BlogRootLocales) {
      assert |BlogHrefLang(a)| != |BlogHrefLang(b)|;
    }
  }

  /** The block shown after the first blog card: exactly one of the two. */
  datatype PromoBlock = CompetitionBlock | SecondBlogCard

  /**
   * The Chinese plugin competition block is shown exactly for the locales
   * translated from the "zh" table; every other locale gets the second blog card.
   */
  function PromoFor(currentLocale: string): (block: PromoBlock)
    ensures block == CompetitionBlock <==> HeaderMenu.TranslationKey(currentLocale) == "zh"
  {
    if currentLocale == "zh" || currentLocale == "zh-hans" then CompetitionBlock else SecondBlogCard
  }

  /** The competition block is shown exactly for the locales whose blog link points at the Chinese section. */
  lemma {:induction false} PromoFollowsBlogSection(currentLocale: string)
    ensures PromoFor(currentLocale) == CompetitionBlock <==> BlogHrefLang(currentLocale) == BlogBase + "/zh-hans"
  {
    if BlogHrefLang(currentLocale) == BlogBase + "/zh-hans" {
      BlogHrefLangSharedExactly(currentLocale, "zh");
    }
  }
}
