/** The translations entry and the three path words derived from it once, at
    startup, for the default locale. */
module Translations {
  import opened JsValues
  import opened Locales

  /** One translation field: locale code to localized text. */
  type Table = map<string, string>

  /** The `fields` of the single translations entry. A field the entry lacks
      is `None`. */
  datatype TranslationEntry = TranslationEntry(
    blog: Option<Table>,
    categories: Option<Table>,
    category: Option<Table>)

  /** The path words used in every resolved path and index route. */
  datatype PathWords = PathWords(blog: string, categories: string, category: string)

  /** The initial value of the three words, kept when the fetch fails. */
  const Unset := PathWords("", "", "")

  /** The property key `defaultLocale.code` yields: the placeholder has no
      code, and `undefined` as a key reads the property "undefined". */
  function LocaleKey(dl: Option<Locale>): string
  {
    match dl
    case Some(l) => l.code
    case None => "undefined"
  }

  /** `table[key]`, with a missing entry rendered as "undefined". */
  function Lookup(t: Table, key: string): (w: string)
    ensures key in t ==> w == t[key]
    ensures key !in t ==> w == "undefined"
  {
    if key in t then t[key] else "undefined"
  }

  /** The startup assignments of the three words, in order. A missing field
      throws when it is indexed; the error is caught and logged, so the words
      assigned before it keep their value and the rest stay "". A failed
      fetch (`None`) assigns none of them. */
  function ResolveWords(entry: Option<TranslationEntry>, dl: Option<Locale>): (w: PathWords)
    ensures entry.None? ==> w == Unset
    ensures entry.Some? ==> var e := entry.value; var key := LocaleKey(dl);
      && (e.blog.Some? ==> w.blog == Lookup(e.blog.value, key))
      && (e.blog.Some? && e.categories.Some? ==> w.categories == Lookup(e.categories.value, key))
      && (e.blog.Some? && e.categories.Some? && e.category.Some? ==> w.category == Lookup(e.category.value, key))
      && (e.blog.None? ==> w == Unset)
      && (e.categories.None? ==> w.categories == "" && w.category == "")
      && (e.category.None? ==> w.category == "")
      && (e.blog.Some? && key !in e.blog.value ==> w.blog == "undefined")
      && (e.blog.Some? && e.categories.Some? && key !in e.categories.value ==> w.categories == "undefined")
      && (e.blog.Some? && e.categories.Some? && e.category.Some? && key !in e.category.value ==> w.category == "undefined")
  {
    match entry
    case None => Unset
    case Some(e) =>
      var key := LocaleKey(dl);
      match e.blog
      case None => Unset
      case Some(b) =>
        var blog := Lookup(b, key);
        match e.categories
        case None => PathWords(blog, "", "")
        case Some(cs) =>
          var categories := Lookup(cs, key);
          match e.category
          case None => PathWords(blog, categories, "")
          case Some(c) => PathWords(blog, categories, Lookup(c, key))
  }

  /** Agreement of two translation tables on the default locale's entry. */
  predicate AgreeAt(t: Option<Table>, u: Option<Table>, key: string)
  {
    t.Some? == u.Some? && (t.Some? ==> (key in t.value <==> key in u.value) && (key in t.value ==> t.value[key] == u.value[key]))
  }

  /** The path words depend on the default locale's translations only: the
      entries of every other locale may change without changing any path. */
  lemma WordsIgnoreOtherLocales(e: TranslationEntry, f: TranslationEntry, dl: Option<Locale>)
    requires AgreeAt(e.blog, f.blog, LocaleKey(dl))
    requires AgreeAt(e.categories, f.categories, LocaleKey(dl))
    requires AgreeAt(e.category, f.category, LocaleKey(dl))
    ensures ResolveWords(Some(e), dl) == ResolveWords(Some(f), dl)
  {
  }
}
