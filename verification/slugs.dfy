/** The node-creation hook: the `slug` field attached to every page, blog
    post and category node before pages are generated. */
module Slugs {
  import opened JsValues
  import opened Locales
  import opened Translations

  /** `node.internal.type`; only the three content types get a slug field. */
  datatype NodeKind = ContentfulPage | ContentfulBlogPost | ContentfulCategory | OtherType(name: string)

  /** A content node as the hook sees it: its raw `slug` may be absent. */
  datatype ContentNode = ContentNode(
    kind: NodeKind,
    contentfulId: string,
    nodeLocale: string,
    slug: Option<string>,
    title: string)

  predicate HasSlugField(kind: NodeKind)
  {
    !kind.OtherType?
  }

  predicate EndsWith(s: string, suffix: string)
  {
    |suffix| <= |s| && s[|s| - |suffix|..] == suffix
  }

  /** The prefix every path of a non-default locale starts with. */
  function LocalePrefix(code: string): string
  {
    "/" + code
  }

  /** Slug of a page. In the default locale the raw slug is put after a "/"
      (the root slug "/" being replaced by ""), so "/" stays "/" but
      "/um-okkur" becomes "//um-okkur"; in any other locale the raw slug is
      appended to "/" and the code, so "/" becomes "/is/". */
  function PageSlug(code: string, slug: Option<string>, dl: Option<Locale>): (r: string)
    ensures IsDefaultCode(code, dl) && slug == Some("/") ==> r == "/"
    ensures IsDefaultCode(code, dl) && slug != Some("/") ==> r == "/" + Interpolate(slug)
    ensures !IsDefaultCode(code, dl) ==> LocalePrefix(code) <= r && r[|code| + 1..] == Interpolate(slug)
  {
    if IsDefaultCode(code, dl) then
      "/" + (if slug == Some("/") then "" else Interpolate(slug))
    else
      "/" + code + Interpolate(slug)
  }

  /** Slug of a blog post or category: the path word of its type, followed by
      the raw slug, prefixed by "/" and the code outside the default locale.
      The word is the one resolved for the default locale, whatever the
      node's own locale. */
  function WordSlug(code: string, word: string, slug: Option<string>, dl: Option<Locale>): (r: string)
    ensures IsDefaultCode(code, dl) ==> r == "/" + word + Interpolate(slug)
    ensures !IsDefaultCode(code, dl) ==> r == LocalePrefix(code) + "/" + word + Interpolate(slug)
    ensures EndsWith(r, Interpolate(slug))
  {
    var prefix := if IsDefaultCode(code, dl) then "" else LocalePrefix(code);
    var r := prefix + "/" + word + Interpolate(slug);
    assert r[|r| - |Interpolate(slug)|..] == Interpolate(slug);
    r
  }

  /** The `slug` field the hook attaches to a node, or `None` for a node of
      any other type. */
  function SlugField(n: ContentNode, dl: Option<Locale>, words: PathWords): (r: Option<string>)
    ensures r.Some? <==> HasSlugField(n.kind)
    ensures n.kind.ContentfulPage? ==> r == Some(PageSlug(n.nodeLocale, n.slug, dl))
    ensures n.kind.ContentfulBlogPost? ==> r == Some(WordSlug(n.nodeLocale, words.blog, n.slug, dl))
    ensures n.kind.ContentfulCategory? ==> r == Some(WordSlug(n.nodeLocale, words.category, n.slug, dl))
  {
    match n.kind
    case ContentfulPage => Some(PageSlug(n.nodeLocale, n.slug, dl))
    case ContentfulBlogPost => Some(WordSlug(n.nodeLocale, words.blog, n.slug, dl))
    case ContentfulCategory => Some(WordSlug(n.nodeLocale, words.category, n.slug, dl))
    case OtherType(_) => None
  }

  /** Outside the default locale every slug starts with "/" and the code. */
  lemma NonDefaultSlugIsPrefixed(n: ContentNode, dl: Option<Locale>, words: PathWords)
    requires HasSlugField(n.kind) && !IsDefaultCode(n.nodeLocale, dl)
    ensures LocalePrefix(n.nodeLocale) <= SlugField(n, dl, words).value
  {
  }

  lemma PrefixCancels(p: string, a: string, b: string)
    ensures p + a == p + b ==> a == b
  {
    if p + a == p + b {
      assert a == (p + a)[|p|..];
      assert b == (p + b)[|p|..];
    }
  }

  /** Within one locale two pages get the same slug only when their raw
      slugs render alike, or when, in the default locale, they are "/" and
      "" (both become "/"). */
  lemma PageSlugInjective(code: string, a: Option<string>, b: Option<string>, dl: Option<Locale>)
    requires PageSlug(code, a, dl) == PageSlug(code, b, dl)
    ensures || Interpolate(a) == Interpolate(b)
            || (IsDefaultCode(code, dl) && {Interpolate(a), Interpolate(b)} == {"/", ""})
  {
    if IsDefaultCode(code, dl) {
      var ra := if a == Some("/") then "" else Interpolate(a);
      var rb := if b == Some("/") then "" else Interpolate(b);
      PrefixCancels("/", ra, rb);
    } else {
      PrefixCancels("/" + code, Interpolate(a), Interpolate(b));
    }
  }

  /** Within one locale and type, posts and categories get the same slug
      only when their raw slugs render alike. */
  lemma WordSlugInjective(code: string, word: string, a: Option<string>, b: Option<string>, dl: Option<Locale>)
    requires WordSlug(code, word, a, dl) == WordSlug(code, word, b, dl)
    ensures Interpolate(a) == Interpolate(b)
  {
    var prefix := if IsDefaultCode(code, dl) then "" else LocalePrefix(code);
    PrefixCancels(prefix + "/" + word, Interpolate(a), Interpolate(b));
  }

  /** Outside the default locale, what follows "/" and the code in a post
      or category path is "/", the word, and the raw slug. */
  lemma WordSlugTail(code: string, word: string, slug: Option<string>, dl: Option<Locale>)
    requires !IsDefaultCode(code, dl)
    ensures WordSlug(code, word, slug, dl)[|code| + 1..] == "/" + word + Interpolate(slug)
  {
    var tail := "/" + word + Interpolate(slug);
    var p := LocalePrefix(code);
    assert |p| == |code| + 1;
    assert (p + tail)[|p|..] == tail;
  }

  /** Two non-default locales place the same raw slug under the same word:
      after the locale prefix, the paths of a post or category agree. */
  lemma WordSlugSameAcrossLocales(c1: string, c2: string, word: string, slug: Option<string>, dl: Option<Locale>)
    requires !IsDefaultCode(c1, dl) && !IsDefaultCode(c2, dl)
    ensures WordSlug(c1, word, slug, dl)[|c1| + 1..] == WordSlug(c2, word, slug, dl)[|c2| + 1..]
  {
    WordSlugTail(c1, word, slug, dl);
    WordSlugTail(c2, word, slug, dl);
  }

  /** A node whose raw slug is the text "undefined" gets the path of a node
      of the same type and locale that has no slug at all. */
  lemma UndefinedSlugCollides(n: ContentNode, dl: Option<Locale>, words: PathWords)
    requires HasSlugField(n.kind) && n.slug == Some("undefined")
    ensures SlugField(n, dl, words) == SlugField(n.(slug := None), dl, words)
  {
    InterpolateCollides();
  }

  /** A default-locale page whose raw slug starts with "/" gets a double
      slash. */
  lemma DefaultPageDoubleSlash()
    ensures PageSlug("is", Some("/um-okkur"), Some(Locale("is", true))) == "//um-okkur"
  {
  }

  /** The root page of a non-default locale keeps a trailing slash. */
  lemma NonDefaultRootTrailingSlash()
    ensures PageSlug("en", Some("/"), Some(Locale("is", true))) == "/en/"
  {
  }

  /** The post word is the default locale's even for a post of another
      locale: with "blog" for "en" (default) and "blogg" for "is", an
      Icelandic post lives under "/is/blog". */
  lemma PostWordIsDefaultLocales()
    ensures var dl := Some(Locale("en", true));
            var e := TranslationEntry(Some(map["en" := "blog", "is" := "blogg"]), None, None);
            var n := ContentNode(ContentfulBlogPost, "p", "is", Some("/x"), "X");
            SlugField(n, dl, ResolveWords(Some(e), dl)).value == "/is/blog/x"
  {
    var dl := Some(Locale("en", true));
    var e := TranslationEntry(Some(map["en" := "blog", "is" := "blogg"]), None, None);
    assert ResolveWords(Some(e), dl) == PathWords("blog", "", "");
    assert "is"[0] != "en"[0];
    assert WordSlug("is", "blog", Some("/x"), dl) == "/is" + "/" + "blog" + "/x";
  }

  /** When the blog table has no entry for the default locale, the word is
      "undefined" and a default-locale post lives under "/undefined". */
  lemma MissingWordIsUndefined()
    ensures var dl := Some(Locale("en", true));
            var e := TranslationEntry(Some(map["is" := "blogg"]), None, None);
            var n := ContentNode(ContentfulBlogPost, "p", "en", Some("/x"), "X");
            SlugField(n, dl, ResolveWords(Some(e), dl)).value == "/undefined/x"
  {
    var dl := Some(Locale("en", true));
    var e := TranslationEntry(Some(map["is" := "blogg"]), None, None);
    assert "en" !in map["is" := "blogg"];
    assert ResolveWords(Some(e), dl).blog == "undefined";
    assert WordSlug("en", "undefined", Some("/x"), dl) == "/" + "undefined" + "/x";
  }
}
