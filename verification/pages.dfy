/** Page generation: for every locale, the per-locale query result becomes
    the list of routes handed to the static-site framework. */
module Pages {
  import opened JsValues
  import opened Locales
  import opened Translations
  import opened Slugs
  import opened Pagination

  /** The template file a route is rendered with. */
  datatype Template = PageTemplate | BlogPostTemplate | BlogTemplate | CategoryTemplate | CategoriesTemplate

  /** A node as the per-locale query returns it, with its `fields.slug`. */
  datatype Entry = Entry(node: ContentNode, slug: string)

  /** The context object passed along with each route. */
  datatype Context =
    | PageContext(page: Entry)
    | BlogPostContext(locale: string, post: Entry, translations: Option<TranslationEntry>)
    | BlogContext(
        defaultLocale: Option<string>,
        locale: string,
        translations: Option<TranslationEntry>,
        numPages: nat,
        blogposts: seq<Entry>,
        currentPage: nat)
    | CategoryContext(locale: string, category: Entry, translations: Option<TranslationEntry>)
    | CategoriesContext(locale: string, categories: seq<Entry>, translations: Option<TranslationEntry>)

  /** One `createPage` call. */
  datatype Route = Route(path: string, template: Template, context: Context)

  /** The per-locale query: either it reports errors, or it returns the
      locale's pages, blog posts and categories in query order. */
  datatype QueryResult =
    | QueryErrors
    | QueryData(pages: seq<Entry>, blogposts: seq<Entry>, categories: seq<Entry>)

  /** The state the startup phase leaves: the locale list, the default
      locale, the translations entry (`None` when it could not be fetched)
      and the path words resolved from it. */
  datatype Site = Site(
    locales: seq<Locale>,
    defaultLocale: Option<Locale>,
    translations: Option<TranslationEntry>,
    words: PathWords)

  /** Startup: the default locale is chosen from the locale list, then the
      path words are read for it from the translations entry. */
  function Initialize(locales: seq<Locale>, fetched: Option<TranslationEntry>): (s: Site)
    ensures s.locales == locales && s.translations == fetched
    ensures s.defaultLocale.None? <==> NoDefault(locales)
    ensures s.defaultLocale.Some? ==> exists i :: LastDefaultAt(locales, i) && s.defaultLocale.value == locales[i]
    ensures s.words == ResolveWords(fetched, s.defaultLocale)
  {
    var dl := DefaultLocale(locales);
    Site(locales, dl, fetched, ResolveWords(fetched, dl))
  }

  /** Path of a locale's blog index or categories index: "/" and the word,
      with "/" and the code in front outside the default locale. */
  function IndexBase(code: string, dl: Option<Locale>, word: string): (p: string)
    ensures IsDefaultCode(code, dl) ==> p == "/" + word
    ensures !IsDefaultCode(code, dl) ==> p == LocalePrefix(code) + "/" + word
  {
    if IsDefaultCode(code, dl) then "/" + word else "/" + code + "/" + word
  }

  function PageRoute(e: Entry): Route
  {
    Route(e.slug, PageTemplate, PageContext(e))
  }

  function PostRoute(site: Site, code: string, e: Entry): Route
  {
    Route(e.slug, BlogPostTemplate, BlogPostContext(code, e, site.translations))
  }

  function CategoryRoute(site: Site, code: string, e: Entry): Route
  {
    Route(e.slug, CategoryTemplate, CategoryContext(code, e, site.translations))
  }

  function CategoriesRoute(site: Site, code: string, cats: seq<Entry>): Route
  {
    Route(IndexBase(code, site.defaultLocale, site.words.categories), CategoriesTemplate,
          CategoriesContext(code, cats, site.translations))
  }

  /** The route of the `i`-th blog index page of a locale. */
  function BlogIndexRoute(site: Site, code: string, chunks: seq<seq<Entry>>, i: nat): Route
    requires i < |chunks|
  {
    Route(IndexPath(IndexBase(code, site.defaultLocale, site.words.blog), i), BlogTemplate,
          BlogContext(DefaultCode(site.defaultLocale), code, site.translations, |chunks|, chunks[i], i + 1))
  }

  function BlogIndexRoutes(site: Site, code: string, posts: seq<Entry>, k: nat): (r: seq<Route>)
    requires k >= 1
    ensures |r| == |Chunks(posts, k)|
    ensures forall i :: 0 <= i < |r| ==> r[i] == BlogIndexRoute(site, code, Chunks(posts, k), i)
  {
    var chunks := Chunks(posts, k);
    seq(|chunks|, i requires 0 <= i < |chunks| => BlogIndexRoute(site, code, chunks, i))
  }

  function PageRoutes(pages: seq<Entry>): (r: seq<Route>)
    ensures |r| == |pages| && forall i :: 0 <= i < |pages| ==> r[i] == PageRoute(pages[i])
  {
    seq(|pages|, i requires 0 <= i < |pages| => PageRoute(pages[i]))
  }

  function PostRoutes(site: Site, code: string, posts: seq<Entry>): (r: seq<Route>)
    ensures |r| == |posts| && forall i :: 0 <= i < |posts| ==> r[i] == PostRoute(site, code, posts[i])
  {
    seq(|posts|, i requires 0 <= i < |posts| => PostRoute(site, code, posts[i]))
  }

  function CategoryRoutes(site: Site, code: string, cats: seq<Entry>): (r: seq<Route>)
    ensures |r| == |cats| && forall i :: 0 <= i < |cats| ==> r[i] == CategoryRoute(site, code, cats[i])
  {
    seq(|cats|, i requires 0 <= i < |cats| => CategoryRoute(site, code, cats[i]))
  }

  /** The routes one locale's query result becomes, in the order they are
      created: pages, posts, blog index pages, categories, and last the
      categories index. A result with errors creates none. */
  function EmitLocale(site: Site, locale: Locale, res: QueryResult, k: nat): (r: seq<Route>)
    requires k >= 1
    ensures res.QueryErrors? ==> r == []
    ensures res.QueryData? ==>
      && |r| == |res.pages| + |res.blogposts| + CeilDiv(|res.blogposts|, k) + |res.categories| + 1
      && r[|r| - 1] == CategoriesRoute(site, locale.code, res.categories)
  {
    match res
    case QueryErrors => []
    case QueryData(pages, posts, cats) =>
      ChunksShape(posts, k);
      PageRoutes(pages)
      + PostRoutes(site, locale.code, posts)
      + BlogIndexRoutes(site, locale.code, posts, k)
      + CategoryRoutes(site, locale.code, cats)
      + [CategoriesRoute(site, locale.code, cats)]
  }

  /** The routes of a locale come in five consecutive runs: its pages, its
      posts, its blog index pages, its categories, then the categories
      index, each run in query order. */
  lemma EmitLocaleLayout(site: Site, locale: Locale, res: QueryResult, k: nat)
    requires k >= 1 && res.QueryData?
    ensures var r := EmitLocale(site, locale, res, k);
      var pages, posts, cats := res.pages, res.blogposts, res.categories;
      var off := |pages| + |posts|;
      var n := |Chunks(posts, k)|;
      && |r| == off + n + |cats| + 1
      && r[..|pages|] == PageRoutes(pages)
      && r[|pages|..off] == PostRoutes(site, locale.code, posts)
      && r[off..off + n] == BlogIndexRoutes(site, locale.code, posts, k)
      && r[off + n..|r| - 1] == CategoryRoutes(site, locale.code, cats)
  {
    var code := locale.code;
    var pages, posts, cats := res.pages, res.blogposts, res.categories;
    var a, b, c, d := PageRoutes(pages), PostRoutes(site, code, posts), BlogIndexRoutes(site, code, posts, k), CategoryRoutes(site, code, cats);
    var e := [CategoriesRoute(site, code, cats)];
    var r := a + b + c + d + e;
    assert EmitLocale(site, locale, res, k) == r;
    assert r[..|a|] == a;
    assert r[|a|..|a| + |b|] == b;
    assert r[|a| + |b|..|a| + |b| + |c|] == c;
    assert r[|a| + |b| + |c|..|r| - 1] == d;
  }

  /** The blog index pages of a locale number 1 to N, all report N pages,
      have pairwise distinct paths, and together list every post once, in
      query order. */
  lemma BlogIndexPages(site: Site, locale: Locale, posts: seq<Entry>, k: nat)
    requires k >= 1
    ensures var idx := BlogIndexRoutes(site, locale.code, posts, k);
      && |idx| == CeilDiv(|posts|, k)
      && (forall i :: 0 <= i < |idx| ==> idx[i].context.BlogContext? && idx[i].context.currentPage == i + 1
                                         && idx[i].context.numPages == |idx|)
      && (forall i, j :: 0 <= i < j < |idx| ==> idx[i].path != idx[j].path)
      && Flatten(seq(|idx|, i requires 0 <= i < |idx| => idx[i].context.blogposts)) == posts
  {
    var idx := BlogIndexRoutes(site, locale.code, posts, k);
    var chunks := Chunks(posts, k);
    ChunksShape(posts, k);
    var base := IndexBase(locale.code, site.defaultLocale, site.words.blog);
    forall i, j | 0 <= i < j < |idx| ensures idx[i].path != idx[j].path {
      IndexPathsDistinct(base, i, j);
    }
    assert seq(|idx|, i requires 0 <= i < |idx| => idx[i].context.blogposts) == chunks;
  }

  /** The entry the query returns for a node, carrying its slug field. */
  function Resolve(site: Site, n: ContentNode): Entry
    requires HasSlugField(n.kind)
  {
    Entry(n, SlugField(n, site.defaultLocale, site.words).value)
  }

  /** The nodes of one type and locale, in node order, as the query returns
      them. */
  function Select(site: Site, nodes: seq<ContentNode>, kind: NodeKind, code: string): (es: seq<Entry>)
    requires HasSlugField(kind)
    ensures |es| <= |nodes|
    ensures forall e :: e in es ==>
      e.node in nodes && e.node.kind == kind && e.node.nodeLocale == code && e == Resolve(site, e.node)
    ensures forall n :: n in nodes && n.kind == kind && n.nodeLocale == code ==> Resolve(site, n) in es
    decreases |nodes|
  {
    if |nodes| == 0 then []
    else
      var n := nodes[0];
      var rest := Select(site, nodes[1..], kind, code);
      assert forall m :: m in nodes <==> m == n || m in nodes[1..];
      (if n.kind == kind && n.nodeLocale == code then [Resolve(site, n)] else []) + rest
  }

  /** The per-locale query over the nodes the hook has processed; the codes
      in `failing` stand for the locales whose query reports errors. */
  function RunQuery(site: Site, nodes: seq<ContentNode>, failing: set<string>, code: string): QueryResult
  {
    if code in failing then QueryErrors
    else QueryData(Select(site, nodes, ContentfulPage, code),
                   Select(site, nodes, ContentfulBlogPost, code),
                   Select(site, nodes, ContentfulCategory, code))
  }

  function LocaleRoutes(site: Site, locale: Locale, nodes: seq<ContentNode>, failing: set<string>): seq<Route>
  {
    EmitLocale(site, locale, RunQuery(site, nodes, failing, locale.code), PostsPerPage)
  }

  /** All routes of a build: the routes of every locale of `ls`, and no
      others. A locale whose query fails contributes none. */
  function EmitAll(site: Site, ls: seq<Locale>, nodes: seq<ContentNode>, failing: set<string>): (r: seq<Route>)
    ensures forall rt :: rt in r <==> exists l :: l in ls && rt in LocaleRoutes(site, l, nodes, failing)
    ensures (forall l :: l in ls ==> l.code in failing) ==> r == []
    decreases |ls|
  {
    if |ls| == 0 then []
    else
      var head := LocaleRoutes(site, ls[0], nodes, failing);
      var rest := EmitAll(site, ls[1..], nodes, failing);
      assert forall l :: l in ls <==> l == ls[0] || l in ls[1..];
      head + rest
  }

  /** `createPages`: the routes of every locale of the site. */
  function CreatePages(site: Site, nodes: seq<ContentNode>, failing: set<string>): (r: seq<Route>)
    ensures forall rt :: rt in r <==> exists l :: l in site.locales && rt in LocaleRoutes(site, l, nodes, failing)
    ensures (forall l :: l in site.locales ==> l.code in failing) ==> r == []
    ensures |site.locales| == 0 ==> r == []
  {
    EmitAll(site, site.locales, nodes, failing)
  }

  lemma PrefixTrans(a: string, b: string, c: string)
    requires a <= b && b <= c
    ensures a <= c
  {
    assert c[..|a|] == b[..|a|];
  }

  /** An entry the query may return for locale `code`: one of the nodes, of
      that locale, carrying the slug the hook gave it. */
  predicate FromLocale(site: Site, nodes: seq<ContentNode>, code: string, e: Entry)
  {
    && e.node in nodes
    && HasSlugField(e.node.kind)
    && e.node.nodeLocale == code
    && e == Resolve(site, e.node)
  }

  predicate AllFromLocale(site: Site, nodes: seq<ContentNode>, code: string, es: seq<Entry>)
  {
    forall e :: e in es ==> FromLocale(site, nodes, code, e)
  }

  predicate ResultFromLocale(site: Site, nodes: seq<ContentNode>, code: string, res: QueryResult)
  {
    res.QueryData? ==> && AllFromLocale(site, nodes, code, res.pages)
                       && AllFromLocale(site, nodes, code, res.blogposts)
                       && AllFromLocale(site, nodes, code, res.categories)
  }

  lemma RunQueryFromLocale(site: Site, nodes: seq<ContentNode>, failing: set<string>, code: string)
    ensures ResultFromLocale(site, nodes, code, RunQuery(site, nodes, failing, code))
  {
  }

  /** What a route of locale `code` is made of: an item route carries the
      entry it was made from and that entry's slug as its path; an index
      route lies under the locale's index path. */
  predicate RouteFits(site: Site, nodes: seq<ContentNode>, code: string, rt: Route)
  {
    match rt.template
    case PageTemplate =>
      rt.context.PageContext? && rt.path == rt.context.page.slug && FromLocale(site, nodes, code, rt.context.page)
    case BlogPostTemplate =>
      rt.context.BlogPostContext? && rt.path == rt.context.post.slug && FromLocale(site, nodes, code, rt.context.post)
    case CategoryTemplate =>
      rt.context.CategoryContext? && rt.path == rt.context.category.slug && FromLocale(site, nodes, code, rt.context.category)
    case BlogTemplate =>
      IndexBase(code, site.defaultLocale, site.words.blog) <= rt.path
    case CategoriesTemplate =>
      rt.path == IndexBase(code, site.defaultLocale, site.words.categories)
  }

  /** Every route a locale's query result becomes fits that locale. */
  lemma EmitLocaleFits(site: Site, nodes: seq<ContentNode>, locale: Locale, res: QueryResult, k: nat)
    requires k >= 1 && ResultFromLocale(site, nodes, locale.code, res)
    ensures forall rt :: rt in EmitLocale(site, locale, res, k) ==> RouteFits(site, nodes, locale.code, rt)
  {
    if res.QueryData? {
      var code := locale.code;
      var pages, posts, cats := res.pages, res.blogposts, res.categories;
      var a := PageRoutes(pages);
      var b := PostRoutes(site, code, posts);
      var c := BlogIndexRoutes(site, code, posts, k);
      var d := CategoryRoutes(site, code, cats);
      var e := [CategoriesRoute(site, code, cats)];
      assert EmitLocale(site, locale, res, k) == a + b + c + d + e;
      forall i | 0 <= i < |a| ensures RouteFits(site, nodes, code, a[i]) {
        assert pages[i] in pages;
      }
      forall i | 0 <= i < |b| ensures RouteFits(site, nodes, code, b[i]) {
        assert posts[i] in posts;
      }
      forall i | 0 <= i < |c| ensures RouteFits(site, nodes, code, c[i]) {
        assert c[i].path == IndexPath(IndexBase(code, site.defaultLocale, site.words.blog), i);
      }
      forall i | 0 <= i < |d| ensures RouteFits(site, nodes, code, d[i]) {
        assert cats[i] in cats;
      }
    }
  }

  lemma FitsPrefixed(site: Site, nodes: seq<ContentNode>, code: string, rt: Route)
    requires RouteFits(site, nodes, code, rt) && !IsDefaultCode(code, site.defaultLocale)
    ensures LocalePrefix(code) <= rt.path
  {
    match rt.template
    case PageTemplate => NonDefaultSlugIsPrefixed(rt.context.page.node, site.defaultLocale, site.words);
    case BlogPostTemplate => NonDefaultSlugIsPrefixed(rt.context.post.node, site.defaultLocale, site.words);
    case CategoryTemplate => NonDefaultSlugIsPrefixed(rt.context.category.node, site.defaultLocale, site.words);
    case BlogTemplate => PrefixTrans(LocalePrefix(code), IndexBase(code, site.defaultLocale, site.words.blog), rt.path);
    case CategoriesTemplate =>
  }

  /** Outside the default locale every route of the locale, whatever its
      kind, starts with "/" and the locale's code. */
  lemma NonDefaultRoutesArePrefixed(site: Site, locale: Locale, nodes: seq<ContentNode>, failing: set<string>)
    requires !IsDefaultCode(locale.code, site.defaultLocale)
    ensures forall rt :: rt in LocaleRoutes(site, locale, nodes, failing) ==> LocalePrefix(locale.code) <= rt.path
  {
    RunQueryFromLocale(site, nodes, failing, locale.code);
    EmitLocaleFits(site, nodes, locale, RunQuery(site, nodes, failing, locale.code), PostsPerPage);
    forall rt | rt in LocaleRoutes(site, locale, nodes, failing) ensures LocalePrefix(locale.code) <= rt.path {
      FitsPrefixed(site, nodes, locale.code, rt);
    }
  }

  /** Every page, post and category route of a locale has the slug the hook
      gave to a node of that locale. */
  lemma ItemRoutesUseNodeSlugs(site: Site, locale: Locale, nodes: seq<ContentNode>, failing: set<string>)
    ensures forall rt :: rt in LocaleRoutes(site, locale, nodes, failing) && rt.template in {PageTemplate, BlogPostTemplate, CategoryTemplate} ==>
      exists n :: n in nodes && n.nodeLocale == locale.code && SlugField(n, site.defaultLocale, site.words) == Some(rt.path)
  {
    RunQueryFromLocale(site, nodes, failing, locale.code);
    EmitLocaleFits(site, nodes, locale, RunQuery(site, nodes, failing, locale.code), PostsPerPage);
    forall rt | rt in LocaleRoutes(site, locale, nodes, failing) && rt.template in {PageTemplate, BlogPostTemplate, CategoryTemplate}
      ensures exists n :: n in nodes && n.nodeLocale == locale.code && SlugField(n, site.defaultLocale, site.words) == Some(rt.path)
    {
      var e := if rt.template == PageTemplate then rt.context.page
               else if rt.template == BlogPostTemplate then rt.context.post
               else rt.context.category;
      assert rt.path == e.slug && FromLocale(site, nodes, locale.code, e);
    }
  }

  /** Paths are not unique by construction: a default-locale post whose raw
      slug is "/2" gets the path of the second blog index page. */
  lemma PostCanShadowIndexPage()
    ensures var dl := Some(Locale("en", true));
            WordSlug("en", "blog", Some("/2"), dl) == IndexPath(IndexBase("en", dl, "blog"), 1)
  {
    assert Decimal(2) == "2";
  }
}
