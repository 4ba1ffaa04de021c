/**
 * `components/category-blog-page.tsx`: the page of one blog category. It narrows the
 * category's posts to a reading tier, sorts them by tier priority and then by date, and
 * hands a non-empty query to the fuzzy search.
 */
module CategoryBlogPage {
  import opened Wrappers
  import opened Strings
  import opened Seqs
  import opened Json
  import opened Mdx
  import opened BlogUtils

  /** The `?q=…&tier=…` parameters; `searchParams` itself may be missing. */
  datatype CategoryParams = CategoryParams(q: Option<string>, tier: Option<string>)

  /** `q || ""`. */
  function QueryOf(params: Option<CategoryParams>): (q: string)
    ensures params.None? || params.value.q.None? ==> q == ""
    ensures params.Some? && params.value.q.Some? ==> q == params.value.q.value
  {
    if params.Some? && params.value.q.Some? then params.value.q.value else ""
  }

  /** `tier || "all"`: a missing or empty tier means every tier. */
  function SelectedTier(params: Option<CategoryParams>): (t: string)
    ensures t != ""
    ensures params.None? || params.value.tier.None? || params.value.tier.value == "" ==> t == "all"
    ensures params.Some? && params.value.tier.Some? && params.value.tier.value != "" ==> t == params.value.tier.value
  {
    if params.Some? && params.value.tier.Some? && params.value.tier.value != "" then params.value.tier.value
    else "all"
  }

  /** `post.frontMatter.tier === tier`. */
  function InTier(tier: string): Post -> bool {
    (p: Post) => Get(p.frontMatter, "tier") == JStr(tier)
  }

  /** The tier filter: every post for "all", otherwise the posts whose tier is exactly the selected one. */
  function TierFiltered(posts: seq<Post>, tier: string): (r: seq<Post>)
    ensures tier == "all" ==> r == posts
    ensures tier != "all" ==> forall i :: 0 <= i < |r| ==> r[i] in posts && Get(r[i].frontMatter, "tier") == JStr(tier)
    ensures tier != "all" ==> forall i :: 0 <= i < |posts| && Get(posts[i].frontMatter, "tier") == JStr(tier) ==>
                                posts[i] in r
  {
    FilterMembers(posts, InTier(tier));
    if tier != "all" then Filter(posts, InTier(tier)) else posts
  }

  /** `getTierPriority(post.frontMatter.tier)`. */
  function Priority(p: Post): int {
    TierPriority(Get(p.frontMatter, "tier"))
  }

  /**
   * The comparator `bTier - aTier`, falling back to `bDate - aDate` on equal tiers: `a` goes
   * first when its tier ranks higher, or ranks the same and its date is later.
   */
  function TierThenNewest(timeOf: Json -> int): (lt: (Post, Post) -> bool)
    ensures forall a, b :: lt(a, b) == (Priority(a) > Priority(b)
                                        || (Priority(a) == Priority(b) && PostTime(timeOf)(a) > PostTime(timeOf)(b)))
  {
    (a: Post, b: Post) => Priority(a) > Priority(b) || (Priority(a) == Priority(b) && PostTime(timeOf)(a) > PostTime(timeOf)(b))
  }

  /** The comparator is consistent, so the sort is well defined. */
  lemma TierThenNewestIsStrictWeak(timeOf: Json -> int)
    ensures StrictWeakOrder(TierThenNewest(timeOf))
  {
  }

  /** The sorted list of the page before any search. */
  function SortedPosts(posts: seq<Post>, tier: string, timeOf: Json -> int): seq<Post> {
    SortBy(TierFiltered(posts, tier), TierThenNewest(timeOf))
  }

  /**
   * The sorted list holds the filtered posts, each as often as before, with higher tiers
   * first and, within a tier, later dates first; posts that tie keep their order.
   */
  lemma SortedPostsShape(posts: seq<Post>, tier: string, timeOf: Json -> int, e: Post)
    ensures multiset(SortedPosts(posts, tier, timeOf)) == multiset(TierFiltered(posts, tier))
    ensures forall i, j :: 0 <= i < j < |SortedPosts(posts, tier, timeOf)| ==>
              var a, b := SortedPosts(posts, tier, timeOf)[i], SortedPosts(posts, tier, timeOf)[j];
              Priority(a) > Priority(b) || (Priority(a) == Priority(b) && PostTime(timeOf)(a) >= PostTime(timeOf)(b))
    ensures TiedWith(SortedPosts(posts, tier, timeOf), TierThenNewest(timeOf), e)
         == TiedWith(TierFiltered(posts, tier), TierThenNewest(timeOf), e)
  {
    SortByPermutation(TierFiltered(posts, tier), TierThenNewest(timeOf));
    TierThenNewestIsStrictWeak(timeOf);
    SortBySorted(TierFiltered(posts, tier), TierThenNewest(timeOf));
    SortByStable(TierFiltered(posts, tier), TierThenNewest(timeOf), e);
  }

  /** The search IIFE: no query keeps the sorted list; otherwise fuzzy search, and its failure keeps the list. */
  function CategorySearch(sorted: seq<Post>, query: string, fuzzy: Fuzzy): (r: seq<Post>)
    ensures query == "" ==> r == sorted
    ensures query != "" && fuzzy(sorted, query).Some? ==> r == fuzzy(sorted, query).value
    ensures query != "" && fuzzy(sorted, query).None? ==> r == sorted
  {
    if query == "" then sorted else fuzzy(sorted, query).GetOr(sorted)
  }

  /** With a fuzzy search that returns only posts it was given, every post shown is one of the sorted posts. */
  lemma CategorySearchFromInput(sorted: seq<Post>, query: string, fuzzy: Fuzzy)
    requires ResultsFromInput(fuzzy)
    ensures forall i :: 0 <= i < |CategorySearch(sorted, query, fuzzy)| ==> CategorySearch(sorted, query, fuzzy)[i] in sorted
  {
  }

  /**
   * The page's posts. `allPosts` is the array the category's posts were fetched into: with
   * the tier "all" the page sorts that array itself, otherwise it sorts the filtered copy.
   */
  method CategoryPosts(allPosts: array<Post>, params: Option<CategoryParams>, timeOf: Json -> int, fuzzy: Fuzzy)
    returns (categoryPosts: seq<Post>)
    modifies allPosts
    ensures SelectedTier(params) == "all" ==> allPosts[..] == SortBy(old(allPosts[..]), TierThenNewest(timeOf))
    ensures SelectedTier(params) != "all" ==> allPosts[..] == old(allPosts[..])
    ensures categoryPosts == CategorySearch(SortedPosts(old(allPosts[..]), SelectedTier(params), timeOf),
                                            QueryOf(params), fuzzy)
  {
    var query := QueryOf(params);
    var selectedTier := SelectedTier(params);
    var allCategoryPosts := allPosts;
    if selectedTier != "all" {
      var kept := Filter(allPosts[..], InTier(selectedTier));
      allCategoryPosts := new Post[|kept|](i requires 0 <= i < |kept| => kept[i]);
      assert allCategoryPosts[..] == kept;
    }
    SortInPlace(allCategoryPosts, TierThenNewest(timeOf));
    var sorted := allCategoryPosts[..];
    if query == "" {
      return sorted;
    }
    var searchResults := fuzzy(sorted, query);
    if searchResults.None? {
      return sorted;
    }
    return searchResults.value;
  }

  /** `/blog/${category}/${post.slug}`. */
  function PostHref(category: string, slug: string): (h: string)
    ensures StartsWith(h, "/blog/" + category + "/")
    ensures EndsWith(h, slug)
    ensures |h| == 7 + |category| + |slug|
  {
    "/blog/" + category + "/" + slug
  }
}
