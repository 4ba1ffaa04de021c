# A verified model of a personal blog's content pipeline

This project models the list and string logic of a Next.js personal website, written in
Dafny. It covers the blog, search, RSS and resources pipeline:

- **Loading posts.** Post slugs come from a directory listing. A post file is chosen (`.mdx`
  before `.md`). Its front matter is normalised: the read time is computed, the tags are
  coerced to an array, and defaults are applied. Posts are listed newest first.
- **The blog index.** The page keeps only uncategorised posts, sorted newest first. It filters
  them by a comma-separated `tags` parameter and searches them in three phases: exact word,
  then partial word, then a fuzzy fallback. It also counts posts per category, builds the
  sorted tag list without duplicates, and builds the add-tag and remove-tag links.
- **Category pages.** A category page filters its posts by tier. It sorts them by tier
  priority and then by date, in place, and searches them with the fuzzy matcher.
- **Post pages and metadata.** The JSON-LD rewriting turns `type`/`id` into `@type`/`@id`,
  recursively. The post page assembles its schemas, selects the image and URL, and checks the
  category. The page metadata makes the same decisions.
- **MDX rendering helpers.** Heading slugs, heading anchors and the three-way classification
  of link hrefs, in both the server and the client component files.
- **Breadcrumbs.** The trail is derived from the current path, with its JSON-LD positions.
- **Build-time validators.** One checks MDX files: front-matter fields, code fences, and a
  trailing fence. The other checks the resources bookmark tree against its schema.
- **The RSS 2.0 feed.** Items are serialised, and so is the channel around them, which
  includes the `atom:link rel="self"` element of RFC 4287, section 4.2.7.
- **The resources directory.** The home page shows the first three links of each
  subcategory. The resource grid orders subcategories by how many links they have.

Each core source file has one module. Shared modules:

- `Wrappers`: `Option`.
- `Strings`: ASCII case mapping, trimming, splitting and joining, substring occurrence,
  string order, number formatting.
- `Seqs`: filter, map and a stable insertion sort, with their permutation, order and
  stability lemmas.
- `Json`: JavaScript values as a recursive datatype. Objects are ordered field lists with
  `Get`, spread and truthiness.

How the source's JavaScript features are modelled:

- **Sorting.** `Array.prototype.sort` is stable. It is modelled by `Seqs.SortBy` over a strict
  weak order, and the model proves that the result is sorted, is a permutation of the input,
  and keeps tied elements in order.
- **Exceptions.** Each `try`/`catch` in the source becomes an `Option` value. `None` is the
  path where something threw.
- **Outside calls.** The file system, gray-matter, MDX `serialize`, Fuse.js, `Date`,
  `encodeURIComponent` and zod's URL test are all function parameters.
- **The category page.** An array that its one `method` sorts in place.
- **Building state step by step.** The source's loops and mutations become methods, each
  proved equal to the function that specifies it:
  - `getPostBySlug` updates `data` field by field;
  - `convertTypeToAtType` assigns keys in a loop;
  - the breadcrumb `reduce` pushes crumbs one at a time;
  - the search IIFE reassigns `filteredPosts`;
  - `validateAllMdxFiles` sets a `hasErrors` flag.

Two behaviours of the source are modelled exactly as written:

- **Content search never matches.** The blog index searches `post.content`, but that value is
  the serialised MDX object, not text. So `containsExactWord` and `containsPartialWord`
  always return false for it (`BlogPage.ContentNeverMatches`).
- **The two image rules differ.**
  - The post page prefixes a front-matter image with the base URL.
  - The metadata uses the image as it is.

  `BlogMetadata.MetadataMatchesPage` states the case where the two images agree.

## Model

| member | source | states |
|---|---|---|
| Utils.GetBaseUrl | lib/utils.ts:17-35 | the first configured source wins: the trimmed `NEXT_PUBLIC_BASE_URL` without one trailing slash, else `https://` + `VERCEL_URL`, else localhost in development, else the production domain |
| Utils.DropTrailingSlash | lib/utils.ts:20 | removes exactly one trailing `/` and leaves strings without one unchanged |
| Utils.GetBaseUrlNoTrailingSlash | lib/utils.ts:17-35 | the base URL never ends in `/` when the configured URL does not end in `//` |
| Utils.EscapeChar | lib/utils.ts:41 | a regex metacharacter gets a backslash in front; any other character is kept as it is |
| Utils.EscapeRegExp | lib/utils.ts:40-42 | the escaped string is never shorter than the input, and equals it when the input contains no metacharacter |
| Utils.EscapeRegExpConcat | lib/utils.ts:40-42 | escaping works character by character: escaping a concatenation is the concatenation of the escapes |
| Utils.ParseEscaped | lib/utils.ts:51-69 | the escaped word parses back as a regex of literal characters only, exactly the word's characters |
| Utils.ParseBounded | lib/utils.ts:51-52 | `\b` + escaped word + `\b` parses as a boundary, the word's literals, and a boundary |
| Utils.SearchFrom | lib/utils.ts:47-74 | the regex `test` is true exactly when the pattern matches at some position |
| Utils.MatchLits | lib/utils.ts:52-68 | a run of literals matches at a position exactly when the text there equals them, ignoring case (the `i` flag) |
| Utils.ContainsExactWord | lib/utils.ts:47-58 | false when the text is missing or the word is empty |
| Utils.ContainsPartialWord | lib/utils.ts:63-74 | false when the text is missing or the word is empty |
| Utils.PartialIsSubstring | lib/utils.ts:63-74 | a partial match is the case-insensitive substring test of a non-empty word, in both directions |
| Utils.ExactIsBoundedOccurrence | lib/utils.ts:47-58 | an exact match holds iff the lowercased word occurs in the lowercased text with a word boundary on both sides |
| Utils.BoundedMatchAt | lib/utils.ts:52-53 | the boundary-word-boundary pattern matches at a position exactly when the word occurs there with a `\b` boundary (a change between word and non-word characters, or an end of the text) before and after it |
| Utils.ExactImpliesPartial | lib/utils.ts:47-74 | every exact-word match is also a partial match |
| Utils.MatchersIgnoreCase | lib/utils.ts:51-69 | upper-casing the text or the word changes neither matcher's answer |
| Mdx.StripPostExtension | lib/mdx.ts:32 | `.mdx` or `.md` is removed from the end; other names are unchanged |
| Mdx.PostSlugs | lib/mdx.ts:27-37 | one slug per `.mdx`/`.md` name of the listing, in order, each the name stripped of its extension; an unreadable directory gives no slugs |
| Mdx.PostSlugsFromListing | lib/mdx.ts:31-32 | every slug comes from a `.mdx` or `.md` file of the listing, and every such file gives its slug |
| Mdx.SplitWhitespace | lib/mdx.ts:139 | splitting on whitespace runs always gives at least one piece, and no piece contains whitespace |
| Mdx.SplitWhitespaceOfWords | lib/mdx.ts:139 | splitting words joined by single spaces gives back exactly those words |
| Mdx.CeilDiv | lib/mdx.ts:140 | the result is the ceiling of the quotient: the least q with d*q >= n |
| Mdx.ReadTimeAtLeastOne | lib/mdx.ts:137-142 | the computed read time is at least one minute for every content |
| Mdx.ReadTimeOfWords | lib/mdx.ts:137-142 | for content of n words the read time is `<ceil(n/175)> min read` |
| Mdx.ChoosePath | lib/mdx.ts:42-52 | `<slug>.mdx` if it exists, else `<slug>.md` if it exists, else none |
| Mdx.TrimmedPieces | lib/mdx.ts:67-69 | one trimmed string per comma-separated piece, in order |
| Mdx.NormaliseTags | lib/mdx.ts:63-74 | falsy tags and arrays are untouched; a string (brackets removed when it is wrapped in `[...]`) becomes its trimmed comma pieces; any other value becomes `[]` |
| Mdx.BracketedTagsRoundTrip | lib/mdx.ts:66-67 | a bracketed comma-joined list of trimmed tags normalises back to exactly those tags |
| Mdx.NormaliseDataReadTime | lib/mdx.ts:58-60 | a truthy front-matter `readTime` is kept; otherwise it is the computed read time of the content |
| Mdx.NormaliseDataTags | lib/mdx.ts:58-74 | `tags` becomes the normalised tags, and every key other than `readTime` and `tags` keeps its value and its presence |
| Mdx.DefaultsGet | lib/mdx.ts:77-82 | each default field is the data's value when truthy, else `Untitled`, the current time, `""`, `[]` or `false` |
| Mdx.FrontMatterKeys | lib/mdx.ts:76-84 | the front matter has no repeated key, and its keys are the six default keys together with the data's keys |
| Mdx.FrontMatterDefaults | lib/mdx.ts:76-84 | a key present in the data overrides the default, because the spread comes last; the default applies only to keys absent from the data |
| Mdx.SerializedContent | lib/mdx.ts:87-104 | the content is always an object: the serialised MDX, or the empty fallback when serialisation fails |
| Mdx.GetPostBySlug | lib/mdx.ts:40-117 | the method that updates `data` in place returns exactly the post the specification function loads |
| Mdx.LoadPostPrefersMdx | lib/mdx.ts:42-52 | the `.mdx` file is loaded when it exists, else the `.md` file, and no post when neither exists |
| Mdx.LoadPostShape | lib/mdx.ts:106-112 | a loaded post carries the requested slug and object content |
| Mdx.LoadAll | lib/mdx.ts:121-127 | one load result per slug, in slug order |
| Mdx.GetAllPosts | lib/mdx.ts:128-132 | the posts are a permutation of the posts that loaded (missing posts dropped) |
| Mdx.GetAllPostsNewestFirst | lib/mdx.ts:130-132 | the posts are ordered by date, newest first |
| Mdx.GetAllPostsAreLoaded | lib/mdx.ts:128-129 | every listed post was loaded from some slug, and every post that loaded is listed |
| Mdx.GetAllPostsStable | lib/mdx.ts:130-132 | posts with the same date keep their load order |
| MdxComponents.SlugifyShape | components/mdx.tsx:66-75 | a slug contains only `[a-z0-9_-]`, no whitespace, no upper case and never `--` |
| MdxComponents.SlugifyIdempotent | components/mdx.tsx:66-75 | slugifying a slug returns it unchanged |
| MdxComponents.SlugifyOfSlug | components/mdx.tsx:66-75 | any string of slug characters without `--` is its own slug |
| MdxComponents.SlugifyAmpersand | components/mdx.tsx:71-74 | `x & y` becomes `x-and-y` |
| MdxComponents.SpellOutAmpersandsShape | components/mdx.tsx:72 | after the `&` step no `&` remains, case is not raised, and text without `&` is unchanged |
| MdxComponents.CollapseHyphensShape | components/mdx.tsx:74 | collapsing leaves no `--`, keeps the first character and the slug alphabet, and leaves text without `--` unchanged |
| MdxComponents.CreateHeading | components/mdx.tsx:77-97 | the heading id is the slug of its text (or of `""`), the anchor links to `#` + id, and the tag is `h<level>` |
| MdxComponents.CustomLink | components/mdx.tsx:28-44 | an href starting with `/` gives a Next link, one starting with `#` a plain anchor, and anything else, including no href, an anchor with the external attributes |
| MdxComponents.ExternalLinkAttrs | components/mdx.tsx:43 | an external link gets `target="_blank"` and `rel="noopener noreferrer"` unless the props give their own, and every prop is kept |
| MdxClient.CreateHeading | components/mdx-client.tsx:117-137 | the client heading id is the client slug of its text (only slug characters, no double hyphen), with an anchor to `#` + id |
| MdxClient.SlugifyAgrees | components/mdx-client.tsx:106-115 | the client's own `slugify` chain gives the same slug as the server's for every string |
| MdxClient.HeadingsAgree | components/mdx-client.tsx:117-137 | the client and server headings are equal for every level and text |
| MdxClient.CustomLink | components/mdx-client.tsx:68-84 | the same `/`, `#`, external three-way classification as the server component |
| MdxClient.LinksAgree | components/mdx-client.tsx:68-84 | the two link components agree on everything except the client's extra `suppressHydrationWarning` on external links |
| BlogUtils.TierPriority | components/blog-utils.tsx:34-39 | the tier is looked up by its string key: a key `reference` gives 3, `revisit` 2 and `read` 1, so a one-element array tier ranks like its element; every other key, including a missing tier's `undefined`, gives 0; the value is always in 0..3 |
| BlogUtils.TierOrderLookup | components/blog-utils.tsx:34 | the tier table holds exactly the three tiers with their priorities |
| BlogUtils.TierRanking | components/blog-utils.tsx:34-39 | reference > revisit > read > any tier whose key is not one of the three names |
| BlogUtils.TierBadge | components/blog-utils.tsx:5-31 | the badges `Reference`, `Revisit` and `Read` with their variants, for exactly those three tiers |
| BlogUtils.BadgeIffPriority | components/blog-utils.tsx:5-39 | a badge is shown exactly when the tier is a string with positive priority; for a string or missing tier, exactly when the priority is positive |
| BlogUtils.ArrayTierRanksWithoutBadge | components/blog-utils.tsx:5-39 | the array tier `[reference]` sorts with priority 3 but gets no badge |
| CategoryBlogPage.QueryOf | components/category-blog-page.tsx:28-29 | a missing query is `""` |
| CategoryBlogPage.SelectedTier | components/category-blog-page.tsx:28-30 | a missing or empty tier is `all` |
| CategoryBlogPage.TierFiltered | components/category-blog-page.tsx:37-40 | `all` keeps every post; any other tier keeps exactly the posts whose tier equals it |
| CategoryBlogPage.TierThenNewest | components/category-blog-page.tsx:43-49 | the comparator orders by tier priority descending, then by date descending |
| CategoryBlogPage.TierThenNewestIsStrictWeak | components/category-blog-page.tsx:43-49 | that comparator is a strict weak order, as the sort requires |
| CategoryBlogPage.SortedPostsShape | components/category-blog-page.tsx:37-49 | the sorted posts are a permutation of the filtered posts, ordered by priority and then date, with ties kept in order |
| CategoryBlogPage.CategorySearch | components/category-blog-page.tsx:52-82 | an empty query returns the sorted list unchanged; otherwise the fuzzy results, or the sorted list when the search throws |
| CategoryBlogPage.CategorySearchFromInput | components/category-blog-page.tsx:52-82 | when the fuzzy search returns only posts it was given, every post the search returns is one of the category's posts |
| CategoryBlogPage.CategoryPosts | components/category-blog-page.tsx:28-82 | the array is sorted in place when the tier is `all` and left untouched otherwise, and the result is the search over the filtered, sorted posts |
| CategoryBlogPage.PostHref | components/category-blog-page.tsx:201 | each post links to `/blog/<category>/<slug>` |
| BlogPage.QueryOf | app/blog/page.tsx:44-45 | a missing query is `""` |
| BlogPage.SelectedTags | app/blog/page.tsx:46 | no tags selected exactly when the parameter is missing or empty; otherwise the comma pieces, which join back to the parameter |
| BlogPage.TagsParamRoundTrip | app/blog/page.tsx:46 | a comma-joined list of comma-free tags parses back to that list |
| BlogPage.ListedPostsShape | app/blog/page.tsx:47-51 | the listing holds exactly the uncategorised posts, newest first |
| BlogPage.ListedPostsKeepLoadOrder | app/blog/page.tsx:47-51 | sorting the already date-ordered posts again changes nothing: the listing is the uncategorised posts in load order |
| BlogPage.TagFiltered | app/blog/page.tsx:99-106 | a post is kept iff all selected tags are in its tag array; with no tags selected the list is unchanged |
| BlogPage.AsText | app/blog/page.tsx:114-119 | a string field is passed as itself and a falsy field as `""`; any other truthy value is not text, so the matchers return false for it |
| BlogPage.ContentNeverMatches | app/blog/page.tsx:114-156 | the serialised content object never matches either matcher |
| BlogPage.ExactHitIsPartialHit | app/blog/page.tsx:112-165 | a post that matches exactly also matches partially |
| BlogPage.SearchCascade | app/blog/page.tsx:95-197 | empty query: the tag-filtered list; some exact hit: exactly the exact hits in order; otherwise, with a query of 3 or more characters and some partial hit: exactly the partial hits in order; else the fuzzy result, or the list when the fuzzy search throws |
| BlogPage.SearchFromInput | app/blog/page.tsx:95-197 | when the fuzzy search returns only posts it was given, every post the search returns is one of the tag-filtered posts |
| BlogPage.ShownPostsHaveTags | app/blog/page.tsx:95-197 | under the same assumption on the fuzzy search, every shown post is a listed post carrying every selected tag |
| BlogPage.FilterPosts | app/blog/page.tsx:95-197 | the method that reassigns `filteredPosts` computes the specified search over the tag-filtered posts |
| BlogPage.CategoryCounts | app/blog/page.tsx:57-92 | one entry per category that has posts, in the fixed category order, each with the number of posts in that category |
| BlogPage.CountedShape | app/blog/page.tsx:89-92 | every shown count is positive and is the number of posts with that category slug |
| BlogPage.AllTagsOrdered | app/blog/page.tsx:220-226 | the tag list has no duplicates and is sorted in string order |
| BlogPage.AllTagsFromPosts | app/blog/page.tsx:220-226 | every listed tag is truthy and comes from some listed post |
| BlogPage.AllTagsComplete | app/blog/page.tsx:220-226 | every truthy tag of a listed post is in the tag list |
| BlogPage.TagLinksKeepQuery | app/blog/page.tsx:277-411 | both tag links keep the query exactly when it is non-empty |
| BlogPage.RemoveTagRoundTrip | app/blog/page.tsx:277-284 | following the remove link selects exactly the other tags, in order |
| BlogPage.AddTagRoundTrip | app/blog/page.tsx:405-412 | following the add link selects the current tags plus the new one, without duplicates, in first-seen order |
| BlogPage.AddTagAppends | app/blog/page.tsx:406-411 | the add link selects the de-duplicated current tags with the new tag appended unless it is already selected; with distinct current tags that is the current tags themselves plus the new one |
| BlogPostPage.NewKey | components/blog-post-page.tsx:54-57 | `type` and `id` are renamed; every other key is kept |
| BlogPostPage.Convert | components/blog-post-page.tsx:48-68 | falsy values and non-objects are returned unchanged; objects and arrays become objects |
| BlogPostPage.ConvertTypeToAtType | components/blog-post-page.tsx:48-68 | the method that assigns keys in a loop computes the specification function |
| BlogPostPage.MapConvert | components/blog-post-page.tsx:59 | arrays are converted element by element |
| BlogPostPage.ConvertObject | components/blog-post-page.tsx:53-65 | `@type` and `@id` take the values of `type` and `id`, copied without conversion; every other key's value is converted (arrays per element, objects recursively, primitives copied) |
| BlogPostPage.ConvertedHasNoTypeOrId | components/blog-post-page.tsx:51-67 | the result has no `type` and no `id` key |
| BlogPostPage.CustomSchemaContext | components/blog-post-page.tsx:145 | a custom schema carries the schema.org `@context` |
| BlogPostPage.CustomSchemaType | components/blog-post-page.tsx:146-147 | a custom schema's `@type` is the definition's `type` |
| BlogPostPage.CustomSchemaOfObject | components/blog-post-page.tsx:144-150 | the `type` field is set to undefined, and every other key comes from the converted definition or the two leading fields |
| BlogPostPage.CustomSchemaOther | components/blog-post-page.tsx:147 | every other key of the definition has its converted value |
| BlogPostPage.CustomSchemas | components/blog-post-page.tsx:143-150 | nullish schemas give none; an array gives one custom schema per entry, in order; a nullish entry, or a value that is neither nullish nor an array, makes the mapping throw |
| BlogPostPage.PostImage | components/blog-post-page.tsx:106-108 | the base URL plus the front-matter image, or the `/og?title=` image with the encoded title |
| BlogPostPage.BlogPostingLinks | components/blog-post-page.tsx:111-140 | the BlogPosting has `@type` BlogPosting, the page image, the post URL, and a WebPage whose `@id` is that same URL |
| BlogPostPage.NotFoundCases | components/blog-post-page.tsx:93-270 | the page is not found exactly when there is no post, the given category differs, or building the page throws |
| BlogPostPage.ShownPageSchemas | components/blog-post-page.tsx:106-153 | a shown page has the post's URL and image, and its schemas are the BlogPosting followed by the custom schemas, in order |
| BlogMetadata.OgImage | lib/blog-metadata.ts:35-37 | the front-matter image as it is, else the `/og?title=` image |
| BlogMetadata.PageTitle | lib/blog-metadata.ts:39 | `<title> - <categoryTitle>` when a category title is given, else the title alone |
| BlogMetadata.MetadataNotFoundCases | lib/blog-metadata.ts:21-71 | "Post Not Found" exactly when there is no post, the category differs, or building the metadata throws |
| BlogMetadata.MetadataShape | lib/blog-metadata.ts:35-64 | the canonical URL and the Open Graph URL are the same post URL; both cards carry the one image; titles, descriptions and date come from the front matter |
| BlogMetadata.MetadataMatchesPage | lib/blog-metadata.ts:11-72 | when the post page is shown, its metadata is found, has the same canonical URL and, without a front-matter image, the same image |
| Breadcrumbs.Segments | components/breadcrumbs.tsx:19-21 | every segment is non-empty and has no `/` |
| Breadcrumbs.SegmentsMembers | components/breadcrumbs.tsx:19-21 | the segments are exactly the non-empty pieces between slashes |
| Breadcrumbs.Capitalize | components/breadcrumbs.tsx:24 | same length, first character upper-cased, the rest unchanged |
| Breadcrumbs.CapitalizeKeepsLetters | components/breadcrumbs.tsx:24 | only the case of the first letter changes, and capitalising twice changes nothing |
| Breadcrumbs.BuildTrail | components/breadcrumbs.tsx:22-27 | the `reduce` that pushes crumbs computes one crumb per segment |
| Breadcrumbs.BreadcrumbItems | components/breadcrumbs.tsx:19-30 | the component's items are Home followed by the trail |
| Breadcrumbs.SegmentsOfHref | components/breadcrumbs.tsx:23 | a crumb's link parses back to the segments it was built from |
| Breadcrumbs.ItemsShape | components/breadcrumbs.tsx:19-30 | Home first and one more item than segments; item i links to the first i segments and shows segment i-1 capitalised |
| Breadcrumbs.TrailExtends | components/breadcrumbs.tsx:23 | each crumb's link extends the previous one by one segment |
| Breadcrumbs.ListElements | components/breadcrumbs.tsx:36-43 | one list item per crumb, at position index + 1, with id base URL + link and the crumb's name |
| Breadcrumbs.ListPositions | components/breadcrumbs.tsx:33-44 | positions run 1..n in increasing order, and the first entry is Home at the site root |
| Breadcrumbs.NavShape | components/breadcrumbs.tsx:56-79 | only the last item is plain text; every earlier item links to its crumb, with the icon only on Home |
| ValidateMdx.MissingMembers | scripts/validate-mdx.js:17-18 | the missing fields are exactly the required fields whose value is falsy |
| ValidateMdx.CountFences | scripts/validate-mdx.js:26 | the number of non-overlapping fences fits in the content |
| ValidateMdx.CountFencesNone | scripts/validate-mdx.js:26 | content without a backtick has no fences |
| ValidateMdx.PlainFileValid | scripts/validate-mdx.js:14-38 | a file with its three required fields set and no backtick in its content is valid |
| ValidateMdx.CountFencesBlock | scripts/validate-mdx.js:26 | a code block without backticks inside contributes exactly two fences |
| ValidateMdx.ValidateFile | scripts/validate-mdx.js:9-43 | a file that cannot be read or parsed is reported as such |
| ValidateMdx.ValidateFileCases | scripts/validate-mdx.js:14-38 | valid iff all three checks pass; otherwise the verdict names the first failing check, in order |
| ValidateMdx.InvalidCases | scripts/validate-mdx.js:17-36 | a falsy required field, an odd fence count or a trimmed content ending in a fence each make a file invalid |
| ValidateMdx.MdxFilesOnlyMdx | scripts/validate-mdx.js:46-50 | every collected path is the directory joined to an `.mdx` or `.md` name |
| ValidateMdx.MdxFilesComplete | scripts/validate-mdx.js:46-50 | every `.mdx` or `.md` name of the directory is collected |
| ValidateMdx.ValidateAll | scripts/validate-mdx.js:53-70 | every file is validated, and the exit code is 1 iff some file is invalid, else 0 |
| ValidateMdx.ValidateDirectory | scripts/validate-mdx.js:46-73 | an unreadable posts directory (an uncaught `readdirSync` throw) exits with 1; otherwise the exit code is 0 exactly when every collected `.mdx`/`.md` file is valid |
| ValidateResources.StringIssues | scripts/validateResources.ts:7-8 | a string field raises no issue iff it is a non-empty string |
| ValidateResources.UrlIssues | scripts/validateResources.ts:9 | a URL field raises no issue iff it is a string that passes the URL test |
| ValidateResources.ArrayIssuesEmpty | scripts/validateResources.ts:16-29 | an array field raises no issue iff it is a non-empty array whose every element passes |
| ValidateResources.LinkIssuesEmpty | scripts/validateResources.ts:6-10 | a link raises no issue iff its name and description are non-empty and its URL passes |
| ValidateResources.SubcategoryIssuesEmpty | scripts/validateResources.ts:13-17 | a subcategory raises no issue iff it is valid: title, description and at least one link, all valid |
| ValidateResources.CategoryIssuesEmpty | scripts/validateResources.ts:20-25 | a category raises no issue iff it is valid: slug, title, description and at least one valid subcategory |
| ValidateResources.ResourcesIssuesEmpty | scripts/validateResources.ts:28-39 | `parse` reports no issue iff the root holds at least one category and all of them are valid |
| ValidateResources.Run | scripts/validateResources.ts:32-53 | a read or JSON error exits 1 |
| ValidateResources.RunOutcome | scripts/validateResources.ts:32-53 | exit 0 iff the file was read and satisfies the schema, else 1, with one reported line per issue |
| Rss.CategoryElements | app/rss/route.ts:17-19 | falsy tags give no elements; truthy tags that are not an array make the route throw |
| Rss.CategoryList | app/rss/route.ts:18 | one `<category>` element per tag, in tag order, the tag inserted verbatim |
| Rss.ItemCategories | app/rss/route.ts:17-19 | a tag array gives its `<category>` elements joined by the item indentation, one per tag |
| Rss.DescriptionText | app/rss/route.ts:15 | a missing or falsy description is empty; otherwise it is inserted verbatim |
| Rss.Item | app/rss/route.ts:12-20 | an item is produced exactly when the tags can be serialised |
| Rss.ItemTextShape | app/rss/route.ts:12-20 | an item starts with `<item>`, ends with `</item>`, and holds the title and the link elements at their places |
| Rss.ItemShape | app/rss/route.ts:12-20 | a post's item holds its verbatim title and the link `baseUrl/blog/<slug>` |
| Rss.Items | app/rss/route.ts:10-22 | exactly one item per post, in post order |
| Rss.Feed | app/rss/route.ts:24-35 | the feed is built exactly when every item is |
| Rss.FeedTextShape | app/rss/route.ts:24-35 | the channel holds the title, the link `baseUrl/blog`, the self `atom:link` to `baseUrl/rss`, and then the items |
| Rss.FeedShape | app/rss/route.ts:10-35 | the feed is the channel around the items joined by newlines |
| Rss.RssFeed | app/rss/route.ts:7-37 | the `GET` feed is served exactly when every post of `getAllPosts` gives an item |
| Rss.RssFeedItems | app/rss/route.ts:7-37 | a served feed is the channel around one item per post of `getAllPosts`, in that order, which is newest first |
| HomePage.FirstLinks | app/page.tsx:38 | the first min(3, n) links of a subcategory, in order |
| HomePage.LinkCategories | app/page.tsx:35-39 | one entry per resource category, in order, with its title and description and the first links of each subcategory concatenated |
| HomePage.CategoryLinksCount | app/page.tsx:38 | the link count is the sum over subcategories of min(3, links), at most 3 per subcategory |
| HomePage.CategoryLinksFrom | app/page.tsx:38 | a link is shown iff it is among the first links of one of the category's subcategories |
| HomePage.CategoryLinksAll | app/page.tsx:38 | when no subcategory has more than 3 links, every link is shown |
| ResourceGrid.SortedAscending | components/resources/resource-grid.tsx:23 | subcategories are ordered by number of links, ascending |
| ResourceGrid.SortedPermutation | components/resources/resource-grid.tsx:23 | the sorted subcategories are a permutation of the input |
| ResourceGrid.SortedStable | components/resources/resource-grid.tsx:23 | subcategories with equal link counts keep their input order |

## Left out

- Case mapping is ASCII only. JavaScript's `toLowerCase`, `toUpperCase` and `trim`, and the
  regex `i` flag, also act on non-ASCII characters. Strings are sequences of characters, not
  UTF-16 code units.
- Regular expressions are not modelled in general. Only the patterns the matchers build are
  parsed (escaped literals and `\b`), together with the fixed `replace` patterns of `slugify`,
  `getPostSlugs` and `calculateReadTime`.
- Fuse.js fuzzy search is a function parameter. Its result (or `None` when it throws) is taken
  as given, because it is a foreign library with floating-point scores and thresholds. That its
  results are items of the list it was given (`result.item`) is the stated assumption
  `Mdx.ResultsFromInput`, under which the search lemmas hold.
- The calls below are function parameters or inputs, because they are I/O or foreign code:
  - the file system, gray-matter and MDX `serialize`;
  - `Date` parsing (`getTime`, as an integer) and formatting (`toUTCString`, `toISOString`, the
    current time);
  - `encodeURIComponent` and zod's `url()` test;
  - environment variables.
- A `getTime()` that is `NaN` is not modelled. Times are integers, so the sort comparators are
  always consistent.
- ValidateResources.Run: the wording of zod's issue messages is a parameter, and only the issue
  kinds and paths are modelled.
- ValidateMdx.ValidateAll: returns only the exit code. The console messages per file and for
  the final verdict are not modelled.
- Console output elsewhere is not modelled either, because logging does not change any result.
- `getTierPriority`: the lookup of inherited property names such as `toString` in `TIER_ORDER`
  is not modelled, because it is a quirk of the JavaScript object model. The lookup does convert
  the tier to its string key, as JavaScript does, so a one-element array tier ranks like its
  element.
- BadgeIffPriority: the badge and the priority agree only for string or missing tiers. The
  source's strict `switch` gives an array tier such as `[reference]` no badge, while the
  lookup ranks it 3 (stated by BlogUtils.ArrayTierRanksWithoutBadge).
- JSX rendering, hooks, CSS classes and icons are not modelled. Only the values that decide
  what is rendered are: link kinds, hrefs, ids, labels and which crumb is plain text.
- `URLSearchParams` encoding of the tag links is not modelled. The query is modelled as the
  object that the links pass to Next.js.
- `getPostsByCategory` is not part of this model. The category page takes its posts as an
  input array.
- The JSON-LD constants of the blog index and the home page, and `JSON.stringify`, are not
  modelled, because they are literals with no logic.
- Json numbers are integers. Fractional front-matter numbers (a `readTime` of 2.5, say) and
  JavaScript's `String(n)` formatting of them in `ToJsString` are not modelled.
- `new Set` is modelled by `Seqs.Dedupe`, which compares by value. JavaScript compares object
  and array tags by identity, so two equal but distinct tag objects would both be kept.
- Json objects keep their keys in insertion order. JavaScript's rule that puts integer-like
  keys first in `Object.entries` is not modelled.
- ResourceGrid.SortedAscending: the copy made by `[...subcategories]` is modelled on values.
  The model shows no mutation that could reach the caller's array; it does not model aliasing.
- MdxComponents.SlugifyAmpersand: the property is proved for `x & y` with single lower-case
  letters. It is not proved for arbitrary words around the ampersand.
- Rss.FeedShape: states the whole feed text. The per-item facts are stated by Rss.Items and
  Rss.ItemShape instead of being repeated here.
- BlogPostPage.BlogPostingLinks: states the type, image, URL and page link of the BlogPosting.
  The constant author, publisher and language entries are in the definition but not restated.
- The per-category page wrappers, the OG image route, the sitemap and robots routes, static
  pages and UI-only components are not part of this model. They contain constants or rendering
  only.
- The RSS route's `Response` headers (content type and cache control) are constants and are not
  modelled; Rss.RssFeed gives the body.
