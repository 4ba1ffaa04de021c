/**
 * `app/rss/route.ts`: the RSS 2.0 feed of the blog. The channel carries the required
 * `title`, `link` and `description` elements of the RSS 2.0 specification ("Required
 * channel elements") and an `atom:link rel="self"` (RFC 4287 section 4.2.7); each post
 * becomes one `<item>` with its title, link, description, date and one `<category>` per tag.
 * Front-matter values are inserted as they are, without XML escaping.
 */
module Rss {
  import opened Wrappers
  import opened Strings
  import opened Seqs
  import opened Json
  import opened Mdx

  /** `<tag>text</tag>`. */
  function Element(tag: string, text: string): string {
    "<" + tag + ">" + text + "</" + tag + ">"
  }

  /** The line break and indentation between the elements of an item. */
  const ItemIndent := "\n        "

  /** One `<category>` per tag, in tag order; none when the tags are falsy; `None` when `tags.map` throws. */
  function CategoryElements(tags: Json): (r: Option<string>)
    ensures !Truthy(tags) ==> r == Some("")
    ensures Truthy(tags) && !tags.JArr? ==> r.None?
  {
    if !Truthy(tags) then Some("")
    else if !tags.JArr? then None
    else Some(Join(CategoryList(tags.items), ItemIndent))
  }

  /** `tags.map(tag => `<category>${tag}</category>`)`. */
  function CategoryList(tags: seq<Json>): (r: seq<string>)
    ensures |r| == |tags|
    ensures forall i :: 0 <= i < |tags| ==> r[i] == Element("category", ToJsString(tags[i]))
  {
    seq(|tags|, i requires 0 <= i < |tags| => Element("category", ToJsString(tags[i])))
  }

  /** `post.frontMatter.description || ""`. */
  function DescriptionText(fm: seq<Field>): (r: string)
    ensures !Truthy(Get(fm, "description")) ==> r == ""
    ensures Truthy(Get(fm, "description")) ==> r == ToJsString(Get(fm, "description"))
  {
    ToJsString(Or(Get(fm, "description"), JStr("")))
  }

  /** `${baseUrl}/blog/${post.slug}`. */
  function ItemLink(baseUrl: string, slug: string): string {
    baseUrl + "/blog/" + slug
  }

  /** The opening of an item, before its title. */
  const ItemOpen := "<item>" + ItemIndent

  const ItemClose := "\n      </item>"

  /** The text of an item up to its link element. */
  function ItemHead(title: string): string {
    ItemOpen + Element("title", title) + ItemIndent
  }

  /** The text of an item after its link element. */
  function ItemTail(description: string, pubDate: string, categories: string): string {
    ItemIndent + Element("description", description)
    + ItemIndent + Element("pubDate", pubDate)
    + ItemIndent + categories + ItemClose
  }

  /** The item template filled in. */
  function ItemText(title: string, link: string, tail: string): string {
    ItemHead(title) + Element("link", link) + tail
  }

  /**
   * The `<item>` of a post; `utc` is `new Date(date).toUTCString()`. `None` when its
   * categories throw.
   */
  function Item(p: Post, baseUrl: string, utc: Json -> string): (r: Option<string>)
    ensures r.Some? <==> CategoryElements(Get(p.frontMatter, "tags")).Some?
  {
    match CategoryElements(Get(p.frontMatter, "tags"))
    case None => None
    case Some(categories) =>
      Some(ItemText(ToJsString(Get(p.frontMatter, "title")), ItemLink(baseUrl, p.slug),
                    ItemTail(DescriptionText(p.frontMatter), utc(Get(p.frontMatter, "date")), categories)))
  }

  /** The filled-in template starts with `<item>`, ends with `</item>`, and holds the title and then the link. */
  lemma ItemTextShape(title: string, link: string, description: string, pubDate: string, categories: string)
    ensures StartsWith(ItemText(title, link, ItemTail(description, pubDate, categories)), "<item>")
    ensures EndsWith(ItemText(title, link, ItemTail(description, pubDate, categories)), "</item>")
    ensures OccursAt(Element("title", title), ItemText(title, link, ItemTail(description, pubDate, categories)), |ItemOpen|)
    ensures OccursAt(Element("link", link), ItemText(title, link, ItemTail(description, pubDate, categories)),
                     |ItemHead(title)|)
  {
    var tail := ItemTail(description, pubDate, categories);
    ItemOpens(title, link, tail);
    ItemTailCloses(description, pubDate, categories);
    EndsWithPrepend(ItemHead(title) + Element("link", link), tail, "</item>");
    ItemTitleAt(title, link, tail);
    OccursInMiddle(ItemHead(title), Element("link", link), tail);
  }

  /** An item's text starts with `<item>`. */
  lemma ItemOpens(title: string, link: string, tail: string)
    ensures StartsWith(ItemText(title, link, tail), "<item>")
  {
    assert StartsWith(ItemOpen, "<item>") by {
      assert ItemOpen[..6] == "<item>";
    }
    StartsWithAppend(ItemOpen, Element("title", title), "<item>");
    StartsWithAppend(ItemOpen + Element("title", title), ItemIndent, "<item>");
    StartsWithAppend(ItemHead(title), Element("link", link), "<item>");
    StartsWithAppend(ItemHead(title) + Element("link", link), tail, "<item>");
  }

  /** An item's text after its link ends with `</item>`. */
  lemma ItemTailCloses(description: string, pubDate: string, categories: string)
    ensures EndsWith(ItemTail(description, pubDate, categories), "</item>")
  {
    assert EndsWith(ItemClose, "</item>") by {
      assert ItemClose[|ItemClose| - 7..] == "</item>";
    }
    var front := ItemIndent + Element("description", description) + ItemIndent + Element("pubDate", pubDate)
                 + ItemIndent + categories;
    EndsWithPrepend(front, ItemClose, "</item>");
  }

  /** The title element follows the opening of the item. */
  lemma ItemTitleAt(title: string, link: string, tail: string)
    ensures OccursAt(Element("title", title), ItemText(title, link, tail), |ItemOpen|)
  {
    OccursInMiddle(ItemOpen, Element("title", title), ItemIndent);
    OccursAtPrefix(Element("title", title), ItemHead(title), Element("link", link), |ItemOpen|);
    OccursAtPrefix(Element("title", title), ItemHead(title) + Element("link", link), tail, |ItemOpen|);
  }


  /**
   * An item starts with `<item>`, ends with `</item>`, holds the post's title verbatim right
   * after the opening and its link, `baseUrl/blog/<slug>`, right after the title.
   */
  lemma ItemShape(p: Post, baseUrl: string, utc: Json -> string)
    requires Item(p, baseUrl, utc).Some?
    ensures StartsWith(Item(p, baseUrl, utc).value, "<item>")
    ensures EndsWith(Item(p, baseUrl, utc).value, "</item>")
    ensures OccursAt(Element("title", ToJsString(Get(p.frontMatter, "title"))), Item(p, baseUrl, utc).value, |ItemOpen|)
    ensures OccursAt(Element("link", ItemLink(baseUrl, p.slug)), Item(p, baseUrl, utc).value,
                     |ItemHead(ToJsString(Get(p.frontMatter, "title")))|)
  {
    var categories := CategoryElements(Get(p.frontMatter, "tags")).value;
    ItemTextShape(ToJsString(Get(p.frontMatter, "title")), ItemLink(baseUrl, p.slug),
                  DescriptionText(p.frontMatter), utc(Get(p.frontMatter, "date")), categories);
  }

  /** `posts.map(…)`: every item, or `None` when one of them throws. */
  function Items(posts: seq<Post>, baseUrl: string, utc: Json -> string): (r: Option<seq<string>>)
    ensures r.Some? ==> |r.value| == |posts|
    ensures r.Some? ==> forall i :: 0 <= i < |posts| ==> Some(r.value[i]) == Item(posts[i], baseUrl, utc)
    ensures r.None? <==> exists i :: 0 <= i < |posts| && Item(posts[i], baseUrl, utc).None?
  {
    if exists i :: 0 <= i < |posts| && Item(posts[i], baseUrl, utc).None? then None
    else Some(seq(|posts|, i requires 0 <= i < |posts| => Item(posts[i], baseUrl, utc).value))
  }

  /** The feed up to the channel's `title`. */
  const FeedPreamble := "<?xml version=\"1.0\" encoding=\"UTF-8\" ?>\n"
                        + "<rss version=\"2.0\" xmlns:atom=\"http://www.w3.org/2005/Atom\">\n"
                        + "  <channel>\n"
                        + "    "

  const ChannelIndent := "\n    "

  const ChannelTitle := Element("title", "Kaivlya's Blog")

  /** The feed up to the channel's `link`. */
  const FeedIntro := FeedPreamble + ChannelTitle + ChannelIndent

  const ChannelDescription := "Thoughts, ideas, and reflections on various topics"

  /** The `atom:link` self reference of the feed. */
  function SelfLink(baseUrl: string): string {
    "<atom:link href=\"" + baseUrl + "/rss\" rel=\"self\" type=\"application/rss+xml\" />"
  }

  /** The channel's elements between its link and its self reference; `now` is `new Date().toUTCString()`. */
  function ChannelMiddle(now: string): string {
    ChannelIndent + Element("description", ChannelDescription)
    + ChannelIndent + Element("language", "en")
    + ChannelIndent + Element("lastBuildDate", now) + ChannelIndent
  }

  /** The feed up to its self reference: the intro, the link and the channel's middle elements. */
  function SelfPrefix(baseUrl: string, now: string): string {
    FeedIntro + Element("link", baseUrl + "/blog") + ChannelMiddle(now)
  }

  /** The feed up to the items. */
  function FeedHead(baseUrl: string, now: string): string {
    SelfPrefix(baseUrl, now) + SelfLink(baseUrl) + ChannelIndent
  }

  const FeedClose := "\n  </channel>\n</rss>"

  /** The whole feed, or `None` when building an item throws. */
  function Feed(posts: seq<Post>, baseUrl: string, utc: Json -> string, now: string): (r: Option<string>)
    ensures r.Some? <==> Items(posts, baseUrl, utc).Some?
  {
    match Items(posts, baseUrl, utc)
    case None => None
    case Some(items) =>
      Some(FeedText(baseUrl, now, Join(items, "\n")))
  }

  /** The feed template filled in. */
  function FeedText(baseUrl: string, now: string, items: string): string {
    FeedHead(baseUrl, now) + items + FeedClose
  }

  /** `GET`: the feed of `getAllPosts`; it is served exactly when every listed post's item builds. */
  function RssFeed(src: PostSource, timeOf: Json -> int, baseUrl: string, utc: Json -> string, now: string)
    : (r: Option<string>)
    ensures r.Some? <==> forall i :: 0 <= i < |GetAllPosts(src, timeOf)| ==>
                           Item(GetAllPosts(src, timeOf)[i], baseUrl, utc).Some?
  {
    Feed(GetAllPosts(src, timeOf), baseUrl, utc, now)
  }

  /**
   * A served feed is the template around one item per post of `getAllPosts`, in its order,
   * which is newest first by `Mdx.GetAllPostsNewestFirst`.
   */
  lemma RssFeedItems(src: PostSource, timeOf: Json -> int, baseUrl: string, utc: Json -> string, now: string)
    requires RssFeed(src, timeOf, baseUrl, utc, now).Some?
    ensures var posts := GetAllPosts(src, timeOf);
            var items := Items(posts, baseUrl, utc);
            items.Some? && |items.value| == |posts|
            && RssFeed(src, timeOf, baseUrl, utc, now).value == FeedText(baseUrl, now, Join(items.value, "\n"))
            && forall i :: 0 <= i < |posts| ==> Some(items.value[i]) == Item(posts[i], baseUrl, utc)
  {
    FeedShape(GetAllPosts(src, timeOf), baseUrl, utc, now);
  }

  /**
   * The channel's title is fixed, its link is `baseUrl/blog` and its self reference
   * `baseUrl/rss`; the items follow.
   */
  lemma FeedTextShape(baseUrl: string, now: string, items: string)
    ensures OccursAt(ChannelTitle, FeedText(baseUrl, now, items), |FeedPreamble|)
    ensures OccursAt(Element("link", baseUrl + "/blog"), FeedText(baseUrl, now, items), |FeedIntro|)
    ensures OccursAt(SelfLink(baseUrl), FeedText(baseUrl, now, items), |SelfPrefix(baseUrl, now)|)
    ensures OccursAt(items, FeedText(baseUrl, now, items), |FeedHead(baseUrl, now)|)
  {
    FeedTitleAt(baseUrl, now);
    InFeedHead(ChannelTitle, baseUrl, now, items, |FeedPreamble|);
    FeedLinkAt(baseUrl, now);
    InFeedHead(Element("link", baseUrl + "/blog"), baseUrl, now, items, |FeedIntro|);
    OccursInMiddle(SelfPrefix(baseUrl, now), SelfLink(baseUrl), ChannelIndent);
    InFeedHead(SelfLink(baseUrl), baseUrl, now, items, |SelfPrefix(baseUrl, now)|);
    OccursInMiddle(FeedHead(baseUrl, now), items, FeedClose);
  }

  /** What occurs in the head of the feed occurs at the same place in the feed. */
  lemma InFeedHead(sub: string, baseUrl: string, now: string, items: string, i: int)
    requires OccursAt(sub, FeedHead(baseUrl, now), i)
    ensures OccursAt(sub, FeedText(baseUrl, now, items), i)
  {
    OccursAtPrefix(sub, FeedHead(baseUrl, now), items, i);
    OccursAtPrefix(sub, FeedHead(baseUrl, now) + items, FeedClose, i);
  }

  /** The channel's title follows the preamble. */
  lemma FeedTitleAt(baseUrl: string, now: string)
    ensures OccursAt(ChannelTitle, FeedHead(baseUrl, now), |FeedPreamble|)
  {
    OccursInMiddle(FeedPreamble, ChannelTitle, ChannelIndent);
    LinkInHead(ChannelTitle, baseUrl, now, |FeedPreamble|);
  }

  /** The channel's link follows the intro. */
  lemma FeedLinkAt(baseUrl: string, now: string)
    ensures OccursAt(Element("link", baseUrl + "/blog"), FeedHead(baseUrl, now), |FeedIntro|)
  {
    var link := Element("link", baseUrl + "/blog");
    OccursAtShift(link, FeedIntro, link, 0);
    assert OccursAt(link, FeedIntro + link, |FeedIntro|) by {
      assert (FeedIntro + link)[|FeedIntro|..|FeedIntro| + |link|] == link;
    }
    OccursAtPrefix(link, FeedIntro + link, ChannelMiddle(now), |FeedIntro|);
    OccursAtPrefix(link, SelfPrefix(baseUrl, now), SelfLink(baseUrl), |FeedIntro|);
    OccursAtPrefix(link, SelfPrefix(baseUrl, now) + SelfLink(baseUrl), ChannelIndent, |FeedIntro|);
  }

  /** What occurs in the intro occurs at the same place in the head of the feed. */
  lemma LinkInHead(sub: string, baseUrl: string, now: string, i: int)
    requires OccursAt(sub, FeedIntro, i)
    ensures OccursAt(sub, FeedHead(baseUrl, now), i)
  {
    var link := Element("link", baseUrl + "/blog");
    OccursAtPrefix(sub, FeedIntro, link, i);
    OccursAtPrefix(sub, FeedIntro + link, ChannelMiddle(now), i);
    OccursAtPrefix(sub, SelfPrefix(baseUrl, now), SelfLink(baseUrl), i);
    OccursAtPrefix(sub, SelfPrefix(baseUrl, now) + SelfLink(baseUrl), ChannelIndent, i);
  }

  /** The feed holds the items, one per post in the order of the posts, joined by line breaks. */
  lemma FeedShape(posts: seq<Post>, baseUrl: string, utc: Json -> string, now: string)
    requires Feed(posts, baseUrl, utc, now).Some?
    ensures Items(posts, baseUrl, utc).Some?
            && Feed(posts, baseUrl, utc, now).value == FeedText(baseUrl, now, Join(Items(posts, baseUrl, utc).value, "\n"))
  {
  }

  /** A post's tags give its categories, one per tag in order, and falsy tags none. */
  lemma ItemCategories(p: Post, baseUrl: string, utc: Json -> string)
    ensures var tags := Get(p.frontMatter, "tags");
            tags.JArr? ==> CategoryElements(tags) == Some(Join(CategoryList(tags.items), ItemIndent))
                           && |CategoryList(tags.items)| == |tags.items|
  {
  }
}
