/**
 * `lib/blog-metadata.ts`: the page metadata of a blog post, shared by the post routes. A
 * missing post, a post of another category or an exception while building the metadata
 * give the 'Post Not Found' title only; otherwise the title, description, canonical link,
 * Open Graph and Twitter card all describe the same post, URL and image.
 */
module BlogMetadata {
  import opened Wrappers
  import opened Strings
  import opened Json
  import opened Mdx
  import opened BlogPostPage

  /** `GenerateBlogMetadataOptions`. */
  datatype MetadataOptions = MetadataOptions(slug: string, categoryTitle: Option<string>, backLink: string, category: Option<string>)

  /** The `openGraph` entry; `images` holds the `url` of each `{ url }` entry. */
  datatype OpenGraph = OpenGraph(title: Json, description: Json, kind: string, publishedTime: Json, url: string, images: seq<Json>)

  /** The `twitter` entry. */
  datatype Twitter = Twitter(card: string, title: Json, description: Json, images: seq<Json>)

  /** `{ title: 'Post Not Found' }`, or the full metadata. */
  datatype Metadata =
    | PostNotFound
    | Described(title: Json, description: Json, canonical: string, openGraph: OpenGraph, twitter: Twitter)

  /** The title of the not-found metadata. */
  const NotFoundTitle := "Post Not Found"

  /**
   * `ogImage`: the front-matter image as it is when truthy, else the generated `/og?title=`
   * image; `None` when `encodeURIComponent` throws.
   */
  function OgImage(p: Post, baseUrl: string, encode: string -> Option<string>): (r: Option<Json>)
    ensures Truthy(Get(p.frontMatter, "image")) ==> r == Some(Get(p.frontMatter, "image"))
    ensures !Truthy(Get(p.frontMatter, "image")) ==>
              (r.None? <==> encode(ToJsString(Get(p.frontMatter, "title"))).None?)
              && (r.Some? ==> r.value == JStr(baseUrl + "/og?title=" + encode(ToJsString(Get(p.frontMatter, "title"))).value))
  {
    var image := Get(p.frontMatter, "image");
    if Truthy(image) then Some(image)
    else
      match encode(ToJsString(Get(p.frontMatter, "title")))
      case None => None
      case Some(title) => Some(JStr(baseUrl + "/og?title=" + title))
  }

  /** `categoryTitle ? `${title} - ${categoryTitle}` : title`. */
  function PageTitle(title: Json, categoryTitle: Option<string>): (r: Json)
    ensures (categoryTitle.None? || categoryTitle.value == "") ==> r == title
    ensures categoryTitle.Some? && categoryTitle.value != "" ==>
              r.JStr? && StartsWith(r.s, ToJsString(title)) && EndsWith(r.s, " - " + categoryTitle.value)
              && |r.s| == |ToJsString(title)| + 3 + |categoryTitle.value|
  {
    if categoryTitle.Some? && categoryTitle.value != "" then JStr(ToJsString(title) + (" - " + categoryTitle.value))
    else title
  }

  /**
   * `generateBlogMetadata(options)` for the post `getPostBySlug` returned (it reports a read
   * failure as `null` itself).
   */
  function GenerateBlogMetadata(opts: MetadataOptions, post: Option<Post>, baseUrl: string,
                                encode: string -> Option<string>): Metadata
  {
    if post.None? then PostNotFound
    else if WrongCategory(opts.category, post.value) then PostNotFound
    else
      var p := post.value;
      var fm := p.frontMatter;
      match OgImage(p, baseUrl, encode)
      case None => PostNotFound
      case Some(ogImage) =>
        var url := PostUrl(baseUrl, opts.backLink, p.slug);
        Described(PageTitle(Get(fm, "title"), opts.categoryTitle), Get(fm, "description"), url,
                  OpenGraph(Get(fm, "title"), Get(fm, "description"), "article", Get(fm, "date"), url, [ogImage]),
                  Twitter("summary_large_image", Get(fm, "title"), Get(fm, "description"), [ogImage]))
  }

  /** The metadata is 'Post Not Found' exactly when there is no post, the category differs, or the image throws. */
  lemma MetadataNotFoundCases(opts: MetadataOptions, post: Option<Post>, baseUrl: string, encode: string -> Option<string>)
    ensures GenerateBlogMetadata(opts, post, baseUrl, encode).PostNotFound? <==>
              post.None? || WrongCategory(opts.category, post.value) || OgImage(post.value, baseUrl, encode).None?
  {
  }

  /**
   * Found metadata describes the post consistently: the canonical link and the Open Graph URL
   * are the same post URL, both cards carry the one image, and the titles and descriptions
   * come from the front matter.
   */
  lemma MetadataShape(opts: MetadataOptions, post: Option<Post>, baseUrl: string, encode: string -> Option<string>)
    requires GenerateBlogMetadata(opts, post, baseUrl, encode).Described?
    ensures var m := GenerateBlogMetadata(opts, post, baseUrl, encode);
            && post.Some? && OgImage(post.value, baseUrl, encode).Some?
            && m.canonical == PostUrl(baseUrl, opts.backLink, post.value.slug)
            && m.openGraph.url == m.canonical
            && m.openGraph.images == [OgImage(post.value, baseUrl, encode).value]
            && m.twitter.images == m.openGraph.images
            && m.openGraph.kind == "article" && m.twitter.card == "summary_large_image"
            && m.openGraph.title == m.twitter.title == Get(post.value.frontMatter, "title")
            && m.description == m.openGraph.description == m.twitter.description == Get(post.value.frontMatter, "description")
            && m.openGraph.publishedTime == Get(post.value.frontMatter, "date")
            && m.title == PageTitle(Get(post.value.frontMatter, "title"), opts.categoryTitle)
  {
  }

  /**
   * The metadata and the post page agree: when the page is shown, its metadata is found, its
   * canonical link is the page's URL, and without a front-matter image both use the same
   * generated image.
   */
  lemma MetadataMatchesPage(opts: MetadataOptions, props: PageProps, post: Option<Post>, baseUrl: string,
                            encode: string -> Option<string>)
    requires props.backLink == opts.backLink && props.category == opts.category
    requires RenderPostPage(props, post, baseUrl, encode).Shown?
    ensures var m := GenerateBlogMetadata(opts, post, baseUrl, encode);
            var page := RenderPostPage(props, post, baseUrl, encode);
            && m.Described?
            && m.canonical == page.url
            && (!Truthy(Get(post.value.frontMatter, "image")) ==> m.openGraph.images == [JStr(page.image)])
  {
    NotFoundCases(props, post, baseUrl, encode);
    ShownPageSchemas(props, post, baseUrl, encode);
  }
}
