# Basalt build-time routing, in Dafny

This project models the routing layer of the Basalt localized static site:
the Gatsby build script `gatsby-node.js`. That script runs once per build and
does the following:

- picks the default locale from the Contentful locale list;
- reads three translated path words ("blog", "categories", "category") for
  that locale;
- gives every page, blog post and category node a `slug` field
  (`onCreateNode`);
- for every locale, turns the locale's query result into routes
  (`createPages`). These are one per page, one per post, paginated blog index
  pages, one per category, and one categories index.

The script also defines a `makeSlug` title-to-slug helper, which it never
calls. It is modelled on its own.

The SDK and GraphQL calls are replaced by explicit inputs:

- the locale list;
- the fetched translations entry, or `None` when the fetch failed;
- the content nodes;
- the set of locales whose query reports errors.

The build is then a pure function from these inputs to a `seq<Route>`.

JavaScript behaviour that shapes the paths is written out:

- An absent value interpolated into a template literal renders as
  `"undefined"` (`JsValues.Interpolate`).
- "No locale flagged" leaves the placeholder `{}`, modelled as `None`. Then:
  - no code ever equals its `code`;
  - translation lookups use the key `"undefined"`.
- A failed translations fetch leaves the three words at `""`.
- A missing translation field throws mid-assignment. The words assigned
  before it keep their value.

Modules, one file each:

- `JsValues` (`js_values.dfy`): `Option`, interpolation, truthiness, decimal
  rendering of page numbers.
- `Locales` (`locales.dfy`): the default-locale scan.
- `Translations` (`translations.dfy`): the path words.
- `Slugs` (`slugs.dfy`): the `onCreateNode` slug rules.
- `MakeSlug` (`make_slug.dfy`): `makeSlug` and its punctuation class.
- `Pagination` (`pagination.dfy`): the `splice` loop and index paths.
- `Pages` (`pages.dfy`): per-locale route emission and `createPages`.

## Model

| member | source | states |
|---|---|---|
| JsValues.InterpolateCollides | gatsby-node.js:297 | an absent value renders exactly like the present text "undefined" |
| JsValues.InterpolateInjective | gatsby-node.js:297 | two values render alike only if they are equal, or are an absent value and the text "undefined" |
| JsValues.Decimal | gatsby-node.js:209 | the page number `${i + 1}` is a non-empty digit string with no leading zero |
| JsValues.ParseDecimalInvertsDecimal | gatsby-node.js:209 | reading the rendered page number back gives the number: decimal rendering is invertible |
| JsValues.DecimalInjective | gatsby-node.js:209 | distinct page numbers render as distinct strings |
| Locales.ScanDefaultKeepsLast | gatsby-node.js:13-20 | the forEach scan leaves the placeholder when no locale is flagged; otherwise it leaves the last flagged locale |
| Locales.DefaultLocale | gatsby-node.js:10-20 | the default locale is absent iff no locale is flagged; when present it is the last flagged locale of the list |
| Locales.DefaultCode | gatsby-node.js:212 | `defaultLocale.code` is the default locale's code, or absent for the placeholder |
| Translations.ResolveWords | gatsby-node.js:22-36 | each word is the field's entry for the default locale's key. A failed fetch, or a missing `blog` field, leaves all three words "". A missing later field keeps the earlier words and leaves itself and the following words "". A field present but without an entry for the key gives the word "undefined" |
| Translations.WordsIgnoreOtherLocales | gatsby-node.js:32-34 | the words depend only on the default locale's entries: tables that agree on that key give the same words |
| Slugs.PageSlug | gatsby-node.js:281-286 | default locale: raw slug "/" gives exactly "/", any other gives "/" + slug. Other locales: "/" + code + slug |
| Slugs.WordSlug | gatsby-node.js:294-316 | default locale: "/" + word + slug. Other locales: "/" + code + "/" + word + slug. The result ends with the raw slug |
| Slugs.SlugField | gatsby-node.js:278-317 | only pages, posts and categories get a slug field. Pages use the page rule; posts use the blog word; categories use the category word |
| Slugs.NonDefaultSlugIsPrefixed | gatsby-node.js:285 | outside the default locale every node slug starts with "/" + code |
| Slugs.PageSlugInjective | gatsby-node.js:282-285 | two pages of one locale share a slug only if their raw slugs render alike, or, in the default locale, they are "/" and "" |
| Slugs.WordSlugInjective | gatsby-node.js:295-298 | two posts (or categories) of one locale share a slug only if their raw slugs render alike |
| Slugs.WordSlugTail | gatsby-node.js:298 | after "/" + code, a non-default post path is "/" + word + raw slug |
| Slugs.WordSlugSameAcrossLocales | gatsby-node.js:32-34 | two non-default locales put the same raw slug under the same word: after their prefixes the paths agree |
| Slugs.DefaultPageDoubleSlash | gatsby-node.js:284 | the default-locale page "/um-okkur" gets the path "//um-okkur" |
| Slugs.NonDefaultRootTrailingSlash | gatsby-node.js:285 | the root page "/" of locale "en" (not default) gets "/en/" |
| Slugs.UndefinedSlugCollides | gatsby-node.js:281-316 | a node whose raw slug is the text "undefined" gets the same slug field as the same node without a slug |
| Slugs.MissingWordIsUndefined | gatsby-node.js:32 | when the blog field lacks the default locale "en", a default-locale post with raw slug "/x" gets "/undefined/x" |
| Slugs.PostWordIsDefaultLocales | gatsby-node.js:32 | with "blog" for the default "en" and "blogg" for "is", an Icelandic post still lives under "/is/blog" |
| MakeSlug.ClassesAsAsciiRanges | gatsby-node.js:267 | the intended class is exactly ASCII 33-47, 58-64, 91-96 and 123-126; the class as written is that plus the digits |
| MakeSlug.LowerAscii | gatsby-node.js:275 | "A".."Z" map to the letter at the same place in "a".."z"; any other character is unchanged |
| MakeSlug.StripPunctuationCounts | gatsby-node.js:273 | a character outside the class occurs in the result exactly as often as in the title, and one in the class never does; so a character is kept iff it is in the title and outside the class |
| MakeSlug.StripPunctuationConcat | gatsby-node.js:273 | stripping a title piece by piece gives the whole title stripped, so the kept characters stay in title order |
| MakeSlug.HyphenateWhitespace | gatsby-node.js:274 | same length; each whitespace character, one by one, becomes "-" and others stay |
| MakeSlug.LowercaseAscii | gatsby-node.js:275 | same length; each character is lower-cased pointwise |
| MakeSlug.MakeSlugWith | gatsby-node.js:269-276 | a truthy slug is returned unchanged. Otherwise the result is "/" then text with no whitespace, no upper-case ASCII and no class character other than "-". It is at most one longer than the title, and every kept title character appears cleaned |
| MakeSlug.DerivedSlug | gatsby-node.js:269-276 | without a truthy slug, the result is exactly "/" followed by the single-pass reference applied to the title |
| MakeSlug.SlugBodyIsSinglePass | gatsby-node.js:272-275 | the three replacements in turn equal a single left-to-right pass (the reference definition) |
| MakeSlug.SinglePassIsClean | gatsby-node.js:272-275 | the reference pass yields clean text, no longer than the title, keeping every non-class character cleaned |
| MakeSlug.SlugBodyConcat | gatsby-node.js:273-275 | slugging a title piece by piece gives the slug of the whole, since whitespace is handled per character, not per run |
| MakeSlug.SlugBodyFixesCleanText | gatsby-node.js:272-275 | a title already free of whitespace, upper case and class characters is its own slug body |
| MakeSlug.AsWrittenDropsDigits | gatsby-node.js:267 | as written, no slug derived from a title contains a digit |
| MakeSlug.IntendedKeepsDigits | gatsby-node.js:267 | with the intended class every digit of the title survives in the derived slug |
| MakeSlug.DigitTitleSlugIsRoot | gatsby-node.js:267-276 | as written, a title made of digits only derives "/", the default locale's root page path |
| MakeSlug.IntendedDigitTitle | gatsby-node.js:267-276 | with the intended class, a title made of digits only derives "/" followed by the whole title |
| MakeSlug.PunctuationRangeStripsDigits | gatsby-node.js:267-276 | "Top 10" derives "/top-" as written and "/top-10" with the intended class |
| Pagination.ChunksShape | gatsby-node.js:196-201 | N posts in pages of K give ceil(N/K) chunks. Each chunk has 1 to K posts, all but the last have exactly K, and together they are the posts in order (none for N = 0) |
| Pagination.Paginate | gatsby-node.js:196-201 | the splice loop builds exactly those chunks; it flattens back to the posts and counts ceil(N/K) |
| Pagination.IndexPath | gatsby-node.js:209 | page 0 gets the base path and only it does; page i > 0 gets the base + "/" + (i + 1) |
| Pagination.IndexPathsDistinct | gatsby-node.js:209 | distinct index pages of a locale get distinct paths |
| Pagination.IndexPathPageNumber | gatsby-node.js:209 | the suffix of index page i > 0 reads back as the page number i + 1 |
| Pages.Initialize | gatsby-node.js:10-36 | startup keeps the locale list and fetched entry; picks the last flagged locale as default, or none; resolves the words for it |
| Pages.IndexBase | gatsby-node.js:204-207 | the blog and categories index paths are "/" + word in the default locale and "/" + code + "/" + word elsewhere |
| Pages.BlogIndexRoutes | gatsby-node.js:203-220 | one blog index route per chunk, the i-th for chunk i |
| Pages.PageRoutes | gatsby-node.js:170-179 | one page route per page, in query order |
| Pages.PostRoutes | gatsby-node.js:182-193 | one post route per post, in query order |
| Pages.CategoryRoutes | gatsby-node.js:236-247 | one category route per category, in query order |
| Pages.EmitLocale | gatsby-node.js:164-261 | a result with errors emits nothing; otherwise it emits pages + posts + ceil(posts/K) + categories + 1 routes, the last being the categories index |
| Pages.EmitLocaleLayout | gatsby-node.js:169-261 | the routes come as consecutive runs in order: pages, posts, blog index pages, categories, categories index |
| Pages.BlogIndexPages | gatsby-node.js:203-219 | index pages carry currentPage 1..N and numPages N, with pairwise distinct paths, and list every post once in order |
| Pages.Select | gatsby-node.js:57 | the query for a type and locale returns every node of that type and locale with its slug field, and nothing else |
| Pages.RunQueryFromLocale | gatsby-node.js:57 | every entry a locale's query returns is a node of that locale carrying the hook's slug |
| Pages.EmitAll | gatsby-node.js:41-264 | a route is emitted iff some locale's result emits it; if every locale's query fails, there are no routes |
| Pages.CreatePages | gatsby-node.js:38-264 | the build emits a route iff some locale of the site emits it; no locales, or every locale failing, gives no routes |
| Pages.EmitLocaleFits | gatsby-node.js:169-261 | item routes use their entry's slug as path; blog index paths extend the blog base; the categories index path is its base |
| Pages.NonDefaultRoutesArePrefixed | gatsby-node.js:204-207 | outside the default locale every route of the locale, index pages included, starts with "/" + code |
| Pages.ItemRoutesUseNodeSlugs | gatsby-node.js:173 | every page, post and category route's path is the slug field of a node of that locale |
| Pages.PostCanShadowIndexPage | gatsby-node.js:209 | paths are not unique: a default-locale post with raw slug "/2" gets "/blog/2", the path of the second index page |

Behaviour of `gatsby-node.js` as written, which the model keeps:

- Posts, categories and both index pages use the default locale's path word
  in every locale (gatsby-node.js:32-34, 297-298, 309-310, 206-207, 253-254).
- A non-default root page "/" gets a trailing slash, "/is/"
  (gatsby-node.js:285).
- A default-locale page whose raw slug starts with "/", and is not "/"
  itself, gets a double slash (gatsby-node.js:284).
- Each whitespace character of a title becomes one hyphen, so a run of them
  gives a run of hyphens (gatsby-node.js:274).
- A node without a slug gets a slug field ending in "undefined"
  (gatsby-node.js:284-285, 297-298, 309-310). `makeSlug` is never called to derive one.
- A failed translations fetch is logged, and the build goes on with empty
  words (gatsby-node.js:23-25, 36).
- When several locales are flagged default, the last one wins. When none is
  flagged, the placeholder `{}` stays and no code matches it
  (gatsby-node.js:10, 15-19).

## Left out

- Contentful client calls and GraphQL query text. They are replaced by the
  explicit inputs above. The per-locale query is modelled as the node filter it
  performs: type and locale, in node order.
- The order of the two startup promises. `Pages.Initialize` reads the words
  after the default locale is chosen. If the translations fetch settles before
  the locale fetch, the words are looked up under `defaultLocale.code` of the
  placeholder, that is under "undefined" (gatsby-node.js:13-20, 30-34). That
  ordering is not modelled.
- The race between the startup promises and `createPages`. The model assumes
  both have settled. Were `createPages` to run first, it would see an empty
  locale list (gatsby-node.js:11, 41).
- The race between the startup promises and `onCreateNode`
  (gatsby-node.js:283-310). Every slug field is computed after both have
  settled. A node created before the locales arrive would take the non-default
  branch. A node created before the translations arrive would use the empty
  word "".
- `createPages` does not wait for its routes. It is `async`, but `forEach`
  drops each locale's query promise, so the function resolves before any
  route is created (gatsby-node.js:38-42, 164). `Pages.EmitAll` assumes every
  locale's callback runs before the framework collects the pages.
- `setFieldsOnGraphQLNodeType`: it returns the startup globals, which
  `Pages.Site` holds.
- Node content other than id, locale, raw slug and title: images, markdown
  HTML, dates.
- The order in which routes of different locales are created. The callbacks
  settle asynchronously, so `Pages.EmitAll` states membership only.
- A rejected per-locale query is an unhandled rejection. It is modelled as that
  locale contributing no routes.
- A slug stored as `null` rather than absent would render "null". Only absent
  slugs are modelled.
- Non-string translation values are not modelled, and neither is a
  translations entry whose items list is empty; the latter is treated like a
  failed fetch.
- MakeSlug.LowerAscii, MakeSlug.LowercaseAscii: lower-case ASCII letters only, not the full
  Unicode case mapping of `toLowerCase`. Strings are sequences of code points,
  not UTF-16 code units.
- MakeSlug.Whitespace: the set `\s` matches is written out as code points, not
  taken from a regex engine.
- Pagination.Paginate: the page size is a parameter of at least 1. The build
  uses `Pagination.PostsPerPage` = 1, and a size of 0 would never terminate.
- `contentful_fixtures/fixtures.js` (a seeding script) and
  `src/templates/Categories.js` (markup) are not part of this model.

## Findings

| source | as written | input that shows it | evidently intended | confidence | as-written member | corrected member |
|---|---|---|---|---|---|---|
| gatsby-node.js:267 | `+-=` inside the bracket class is the range from '+' to '='. This adds the digits 0-9 to the class; the range's other characters are listed anyway | makeSlug with no slug and title "404" gives "/", the root page's path; "Top 10" gives "/top-" | the three characters '+', '-', '=' listed one by one, giving "/404" and "/top-10" | high (not executed) | MakeSlug.DigitTitleSlugIsRoot | MakeSlug.IntendedDigitTitle |

`MakeSlug.MakeSlug` is the helper as written. `MakeSlug.MakeSlugIntended` is
the corrected helper. The build never calls either, so no route depends on the
correction.
