/**
 * `app/blog/page.tsx`: the blog index. It lists the uncategorised posts newest first,
 * narrows them to the selected tags, searches them in three phases (whole words, then
 * substrings for queries of three or more characters, then fuzzy search), counts the posts
 * of each category, collects the tag cloud and builds the links that add or remove a tag.
 */
module BlogPage {
  import opened Wrappers
  import opened Strings
  import opened Seqs
  import opened Json
  import opened Utils
  import opened Mdx

  // ---------------------------------------------------------------------------------------
  // Search parameters

  /** The `?q=…&tags=…` parameters; `searchParams` itself may be missing. */
  datatype SearchParams = SearchParams(q: Option<string>, tags: Option<string>)

  /** `q || ""`. */
  function QueryOf(params: Option<SearchParams>): (q: string)
    ensures params.Some? && params.value.q.Some? ==> q == params.value.q.value
    ensures params.None? || params.value.q.None? ==> q == ""
  {
    if params.Some? && params.value.q.Some? then params.value.q.value else ""
  }

  /** `tags ? tags.split(",") : []`: the comma-separated tag list, or none for a missing or empty parameter. */
  function SelectedTags(tags: Option<string>): (r: seq<string>)
    ensures r == [] <==> tags.None? || tags.value == ""
    ensures tags.Some? && tags.value != "" ==> Join(r, ",") == tags.value
    ensures forall i :: 0 <= i < |r| ==> ',' !in r[i]
  {
    if tags.Some? && tags.value != "" then
      JoinSplit(tags.value, ',');
      Split(tags.value, ',')
    else []
  }

  /** Joining a list of tags and splitting them again gives the list back, unless the list is one empty tag. */
  lemma TagsParamRoundTrip(r: seq<string>)
    requires forall i :: 0 <= i < |r| ==> ',' !in r[i]
    requires r != [""]
    ensures SelectedTags(Some(Join(r, ","))) == r
  {
    if |r| >= 1 {
      if |r| >= 2 {
        assert Join(r, ",") == r[0] + "," + Join(r[1..], ",");
        assert ',' in Join(r, ",") by {
          assert Join(r, ",")[|r[0]|] == ',';
        }
      } else {
        assert Join(r, ",") == r[0];
      }
      SplitJoin(r, ',');
    }
  }

  // ---------------------------------------------------------------------------------------
  // The listing

  /** `!post.frontMatter.category`. */
  predicate IsUncategorised(p: Post) {
    !Truthy(Get(p.frontMatter, "category"))
  }

  /** The posts the index lists: the uncategorised ones, sorted newest first. */
  function ListedPosts(all: seq<Post>, timeOf: Json -> int): seq<Post> {
    SortBy(Filter(all, IsUncategorised), NewestFirst(timeOf))
  }

  /** The listing holds exactly the uncategorised posts, newest first. */
  lemma ListedPostsShape(all: seq<Post>, timeOf: Json -> int)
    ensures forall i :: 0 <= i < |ListedPosts(all, timeOf)| ==> IsUncategorised(ListedPosts(all, timeOf)[i])
    ensures multiset(ListedPosts(all, timeOf)) == multiset(Filter(all, IsUncategorised))
    ensures forall i, j :: 0 <= i < j < |ListedPosts(all, timeOf)| ==>
              PostTime(timeOf)(ListedPosts(all, timeOf)[i]) >= PostTime(timeOf)(ListedPosts(all, timeOf)[j])
  {
    var kept := Filter(all, IsUncategorised);
    SortByPermutation(kept, NewestFirst(timeOf));
    KeyOrdersAreStrictWeak(PostTime(timeOf));
    SortBySorted(kept, NewestFirst(timeOf));
    forall i | 0 <= i < |ListedPosts(all, timeOf)| ensures IsUncategorised(ListedPosts(all, timeOf)[i]) {
      var r := ListedPosts(all, timeOf);
      assert r[i] in multiset(kept);
    }
  }

  /** `getAllPosts` is already newest first, so sorting the uncategorised posts again changes nothing. */
  lemma ListedPostsKeepLoadOrder(src: PostSource, timeOf: Json -> int)
    ensures ListedPosts(GetAllPosts(src, timeOf), timeOf) == Filter(GetAllPosts(src, timeOf), IsUncategorised)
  {
    var loaded := Somes(LoadAll(src, PostSlugs(src.listing)));
    KeyOrdersAreStrictWeak(PostTime(timeOf));
    SortBySorted(loaded, NewestFirst(timeOf));
    FilterSorted(GetAllPosts(src, timeOf), IsUncategorised, NewestFirst(timeOf));
    SortBySortedIsIdentity(Filter(GetAllPosts(src, timeOf), IsUncategorised), NewestFirst(timeOf));
  }

  // ---------------------------------------------------------------------------------------
  // Tag filter

  /** `Array.isArray(post.frontMatter.tags) && post.frontMatter.tags.includes(tag)`. */
  predicate HasTag(p: Post, tag: string) {
    var tags := Get(p.frontMatter, "tags");
    tags.JArr? && JStr(tag) in tags.items
  }

  /** `selectedTags.every(tag => …)`. */
  predicate HasAllTags(p: Post, selected: seq<string>) {
    forall i :: 0 <= i < |selected| ==> HasTag(p, selected[i])
  }

  function TagMatcher(selected: seq<string>): Post -> bool {
    (p: Post) => HasAllTags(p, selected)
  }

  /** The posts carrying every selected tag; all of them when no tag is selected. */
  function TagFiltered(posts: seq<Post>, selected: seq<string>): (r: seq<Post>)
    ensures |selected| == 0 ==> r == posts
    ensures forall i :: 0 <= i < |r| ==> r[i] in posts && HasAllTags(r[i], selected)
    ensures forall i :: 0 <= i < |posts| && HasAllTags(posts[i], selected) ==> posts[i] in r
  {
    FilterMembers(posts, TagMatcher(selected));
    if |selected| > 0 then Filter(posts, TagMatcher(selected)) else posts
  }

  // ---------------------------------------------------------------------------------------
  // Search

  /** `value || ''` handed to a matcher: the matcher sees a string only when the value is one. */
  function AsText(v: Json): (r: Option<string>)
    ensures v.JStr? ==> r == Some(v.s)
    ensures !Truthy(v) ==> r == Some("")
    ensures Truthy(v) && !v.JStr? ==> r.None?
  {
    var w := Or(v, JStr(""));
    if w.JStr? then Some(w.s) else None
  }

  /** `Array.isArray(tags) ? tags.join(' ') : ''`. */
  function TagsText(tags: Json): string {
    if tags.JArr? then JoinValues(tags.items, " ") else ""
  }

  /** The whole-word test of the first phase, on the content, title, description and tags. */
  predicate ExactHit(p: Post, q: string) {
    || ContainsExactWord(AsText(p.content), q)
    || ContainsExactWord(AsText(Get(p.frontMatter, "title")), q)
    || ContainsExactWord(AsText(Get(p.frontMatter, "description")), q)
    || ContainsExactWord(Some(TagsText(Get(p.frontMatter, "tags"))), q)
  }

  /** The substring test of the second phase, on the same four texts. */
  predicate PartialHit(p: Post, q: string) {
    || ContainsPartialWord(AsText(p.content), q)
    || ContainsPartialWord(AsText(Get(p.frontMatter, "title")), q)
    || ContainsPartialWord(AsText(Get(p.frontMatter, "description")), q)
    || ContainsPartialWord(Some(TagsText(Get(p.frontMatter, "tags"))), q)
  }

  function ExactMatcher(q: string): Post -> bool {
    (p: Post) => ExactHit(p, q)
  }

  function PartialMatcher(q: string): Post -> bool {
    (p: Post) => PartialHit(p, q)
  }

  /** A whole-word hit is also a substring hit. */
  lemma ExactHitIsPartialHit(p: Post, q: string)
    ensures ExactHit(p, q) ==> PartialHit(p, q)
  {
    ExactImpliesPartial(AsText(p.content), q);
    ExactImpliesPartial(AsText(Get(p.frontMatter, "title")), q);
    ExactImpliesPartial(AsText(Get(p.frontMatter, "description")), q);
    ExactImpliesPartial(Some(TagsText(Get(p.frontMatter, "tags"))), q);
  }

  /**
   * A loaded post's content is the serializer's object, which has no `toLowerCase`, so the
   * content never matches and only the title, description and tags are searched.
   */
  lemma ContentNeverMatches(p: Post, q: string)
    requires p.content.JObj?
    ensures !ContainsExactWord(AsText(p.content), q) && !ContainsPartialWord(AsText(p.content), q)
  {
  }

  /** The search cascade of the `posts` expression, after the tag filter. */
  function Search(filtered: seq<Post>, q: string, fuzzy: Fuzzy): seq<Post> {
    if q == "" then filtered
    else
      var exact := Filter(filtered, ExactMatcher(q));
      if |exact| > 0 then exact
      else
        var partial := Filter(filtered, PartialMatcher(q));
        if |q| >= 3 && |partial| > 0 then partial
        else match fuzzy(filtered, q)
          case Some(found) => found
          case None => filtered
  }

  /**
   * The phases of the search: no query leaves the list alone; any whole-word hit makes the
   * result exactly the whole-word hits in their order; otherwise a query of three or more
   * characters with a substring hit gives exactly the substring hits; otherwise fuzzy search
   * decides, and its failure leaves the list alone.
   */
  lemma SearchCascade(filtered: seq<Post>, q: string, fuzzy: Fuzzy)
    ensures q == "" ==> Search(filtered, q, fuzzy) == filtered
    ensures q != "" && (exists i :: 0 <= i < |filtered| && ExactHit(filtered[i], q)) ==>
              Search(filtered, q, fuzzy) == Filter(filtered, ExactMatcher(q))
    ensures q != "" && (forall i :: 0 <= i < |filtered| ==> !ExactHit(filtered[i], q))
            && |q| >= 3 && (exists i :: 0 <= i < |filtered| && PartialHit(filtered[i], q)) ==>
              Search(filtered, q, fuzzy) == Filter(filtered, PartialMatcher(q))
    ensures q != "" && (forall i :: 0 <= i < |filtered| ==> !ExactHit(filtered[i], q))
            && (|q| < 3 || forall i :: 0 <= i < |filtered| ==> !PartialHit(filtered[i], q)) ==>
              Search(filtered, q, fuzzy) == fuzzy(filtered, q).GetOr(filtered)
  {
    if q != "" && (exists i :: 0 <= i < |filtered| && ExactHit(filtered[i], q)) {
      SearchExactPhase(filtered, q, fuzzy);
    }
    if q != "" && (forall i :: 0 <= i < |filtered| ==> !ExactHit(filtered[i], q))
       && |q| >= 3 && (exists i :: 0 <= i < |filtered| && PartialHit(filtered[i], q)) {
      SearchPartialPhase(filtered, q, fuzzy);
    }
    if q != "" && (forall i :: 0 <= i < |filtered| ==> !ExactHit(filtered[i], q))
       && (|q| < 3 || forall i :: 0 <= i < |filtered| ==> !PartialHit(filtered[i], q)) {
      SearchFuzzyPhase(filtered, q, fuzzy);
    }
  }

  /** With a fuzzy search that returns only posts it was given, the search only ever narrows the list. */
  lemma SearchFromInput(filtered: seq<Post>, q: string, fuzzy: Fuzzy)
    requires ResultsFromInput(fuzzy)
    ensures forall i :: 0 <= i < |Search(filtered, q, fuzzy)| ==> Search(filtered, q, fuzzy)[i] in filtered
  {
    if q != "" {
      var exact := Filter(filtered, ExactMatcher(q));
      var partial := Filter(filtered, PartialMatcher(q));
      if |exact| > 0 {
        FilterMembers(filtered, ExactMatcher(q));
      } else if |q| >= 3 && |partial| > 0 {
        FilterMembers(filtered, PartialMatcher(q));
      } else if fuzzy(filtered, q).Some? {
        assert Search(filtered, q, fuzzy) == fuzzy(filtered, q).value;
      }
    }
  }

  /** Every post the page shows is a listed post carrying every selected tag. */
  lemma ShownPostsHaveTags(allPosts: seq<Post>, selected: seq<string>, q: string, fuzzy: Fuzzy)
    requires ResultsFromInput(fuzzy)
    ensures var shown := Search(TagFiltered(allPosts, selected), q, fuzzy);
            forall i :: 0 <= i < |shown| ==> shown[i] in allPosts && HasAllTags(shown[i], selected)
  {
    var filtered := TagFiltered(allPosts, selected);
    var shown := Search(filtered, q, fuzzy);
    SearchFromInput(filtered, q, fuzzy);
    forall i | 0 <= i < |shown|
      ensures shown[i] in allPosts && HasAllTags(shown[i], selected)
    {
      assert shown[i] in filtered;
      var k :| 0 <= k < |filtered| && filtered[k] == shown[i];
    }
  }

  /** A whole-word hit decides the search. */
  lemma SearchExactPhase(filtered: seq<Post>, q: string, fuzzy: Fuzzy)
    requires q != "" && exists i :: 0 <= i < |filtered| && ExactHit(filtered[i], q)
    ensures Search(filtered, q, fuzzy) == Filter(filtered, ExactMatcher(q))
  {
    FilterEmpty(filtered, ExactMatcher(q));
  }

  /** Without a whole-word hit, a substring hit decides a query of three or more characters. */
  lemma SearchPartialPhase(filtered: seq<Post>, q: string, fuzzy: Fuzzy)
    requires q != "" && forall i :: 0 <= i < |filtered| ==> !ExactHit(filtered[i], q)
    requires |q| >= 3 && exists i :: 0 <= i < |filtered| && PartialHit(filtered[i], q)
    ensures Search(filtered, q, fuzzy) == Filter(filtered, PartialMatcher(q))
  {
    FilterEmpty(filtered, ExactMatcher(q));
    FilterEmpty(filtered, PartialMatcher(q));
  }

  /** Without either kind of hit, fuzzy search decides, and its failure leaves the list alone. */
  lemma SearchFuzzyPhase(filtered: seq<Post>, q: string, fuzzy: Fuzzy)
    requires q != "" && forall i :: 0 <= i < |filtered| ==> !ExactHit(filtered[i], q)
    requires |q| < 3 || forall i :: 0 <= i < |filtered| ==> !PartialHit(filtered[i], q)
    ensures Search(filtered, q, fuzzy) == fuzzy(filtered, q).GetOr(filtered)
  {
    FilterEmpty(filtered, ExactMatcher(q));
    if |q| >= 3 {
      FilterEmpty(filtered, PartialMatcher(q));
    }
  }

  /** The `posts` expression: the tag filter, then the search, returning as soon as a phase decides. */
  method FilterPosts(allPosts: seq<Post>, selectedTags: seq<string>, query: string, fuzzy: Fuzzy)
    returns (posts: seq<Post>)
    ensures posts == Search(TagFiltered(allPosts, selectedTags), query, fuzzy)
  {
    var filteredPosts := allPosts;
    if |selectedTags| > 0 {
      filteredPosts := Filter(filteredPosts, TagMatcher(selectedTags));
    }
    if query != "" {
      var exactMatches := Filter(filteredPosts, ExactMatcher(query));
      if |exactMatches| > 0 {
        return exactMatches;
      }
      if |query| >= 3 {
        var partialMatches := Filter(filteredPosts, PartialMatcher(query));
        if |partialMatches| > 0 {
          return partialMatches;
        }
      }
      var searchResults := fuzzy(filteredPosts, query);
      if searchResults.None? {
        return filteredPosts;
      }
      return searchResults.value;
    }
    return filteredPosts;
  }

  // ---------------------------------------------------------------------------------------
  // Category counts

  datatype Category = Category(slug: string, title: string, description: string)

  /** The categories the index offers, in display order. */
  const Categories := [
    Category("tech", "Tech & Software Engineering", "Technology, software engineering, and development."),
    Category("travel", "Travel", "Travel guides, destinations, and adventure stories"),
    Category("spiritual", "Spiritual", "Spiritual insights, personal growth, and mindfulness"),
    Category("personal", "Personal", "Personal stories, life lessons, and reflections")
  ]

  datatype CountedCategory = CountedCategory(category: Category, count: nat)

  /** `post.frontMatter.category === slug`. */
  function InCategory(slug: string): Post -> bool {
    (p: Post) => Get(p.frontMatter, "category") == JStr(slug)
  }

  /** The number of posts in a category. */
  function CountIn(posts: seq<Post>, slug: string): nat {
    |Filter(posts, InCategory(slug))|
  }

  function WithCount(posts: seq<Post>): Category -> CountedCategory {
    (c: Category) => CountedCategory(c, CountIn(posts, c.slug))
  }

  function HasPosts(posts: seq<Post>): Category -> bool {
    (c: Category) => CountIn(posts, c.slug) > 0
  }

  predicate IsCounted(cc: CountedCategory) {
    cc.count > 0
  }

  /** `categories.map(c => ({ ...c, count })).filter(c => c.count > 0)` over a list of categories. */
  function Counted(cats: seq<Category>, posts: seq<Post>): seq<CountedCategory> {
    Filter(Map(cats, WithCount(posts)), IsCounted)
  }

  /** `categoriesWithCounts`: each category with its count, without the empty ones. */
  function CategoriesWithCounts(posts: seq<Post>): seq<CountedCategory> {
    Counted(Categories, posts)
  }

  /**
   * The counted categories are the categories that have posts, in the given order, each with
   * the number of posts whose category is its slug.
   */
  lemma CountedShape(cats: seq<Category>, posts: seq<Post>)
    ensures Counted(cats, posts) == Map(Filter(cats, HasPosts(posts)), WithCount(posts))
    ensures forall i :: 0 <= i < |Counted(cats, posts)| ==>
              Counted(cats, posts)[i].count > 0
              && Counted(cats, posts)[i].count == CountIn(posts, Counted(cats, posts)[i].category.slug)
  {
    FilterMap(cats, WithCount(posts), IsCounted, HasPosts(posts));
  }

  /** The index shows the four categories that have posts, in the fixed order, with their counts. */
  lemma CategoryCounts(posts: seq<Post>)
    ensures CategoriesWithCounts(posts) == Map(Filter(Categories, HasPosts(posts)), WithCount(posts))
    ensures forall i :: 0 <= i < |CategoriesWithCounts(posts)| ==>
              CategoriesWithCounts(posts)[i].count > 0
              && CategoriesWithCounts(posts)[i].count == CountIn(posts, CategoriesWithCounts(posts)[i].category.slug)
  {
    CountedShape(Categories, posts);
  }

  // ---------------------------------------------------------------------------------------
  // The tag cloud

  /** `post.frontMatter.tags || []` as `flatMap` spreads it: an array's items, or the value itself. */
  function TagValues(p: Post): seq<Json> {
    var tags := Or(Get(p.frontMatter, "tags"), JArr([]));
    if tags.JArr? then tags.items else [tags]
  }

  /** `Array.from(new Set(posts.flatMap(…).filter(Boolean))).sort()`. */
  function AllTags(posts: seq<Post>): seq<Json> {
    SortBy(Dedupe(Filter(FlatMap(posts, TagValues), Truthy)), ByStringKey(ToJsString))
  }

  /** The tag cloud has no duplicates and is in the string order of the default sort. */
  lemma AllTagsOrdered(posts: seq<Post>)
    ensures Distinct(AllTags(posts))
    ensures Sorted(AllTags(posts), ByStringKey(ToJsString))
  {
    var unique := Dedupe(Filter(FlatMap(posts, TagValues), Truthy));
    SortByPermutation(unique, ByStringKey(ToJsString));
    DistinctPermutation(unique, AllTags(posts));
    StringKeyOrderIsStrictWeak(ToJsString);
    SortBySorted(unique, ByStringKey(ToJsString));
  }

  /** Every tag in the cloud is truthy and is a tag of one of the posts. */
  lemma AllTagsFromPosts(posts: seq<Post>)
    ensures forall i :: 0 <= i < |AllTags(posts)| ==> Truthy(AllTags(posts)[i])
    ensures forall i :: 0 <= i < |AllTags(posts)| ==>
              exists j :: 0 <= j < |posts| && AllTags(posts)[i] in TagValues(posts[j])
  {
    var all := FlatMap(posts, TagValues);
    var truthy := Filter(all, Truthy);
    var unique := Dedupe(truthy);
    var r := AllTags(posts);
    SortByPermutation(unique, ByStringKey(ToJsString));
    forall i | 0 <= i < |r|
      ensures Truthy(r[i]) && exists j :: 0 <= j < |posts| && r[i] in TagValues(posts[j])
    {
      assert r[i] in multiset(unique);
      assert r[i] in unique;
      FilterMembers(all, Truthy);
      assert r[i] in truthy;
      FlatMapMembers(posts, TagValues, r[i]);
    }
  }

  /** Every truthy tag of every post is in the cloud. */
  lemma AllTagsComplete(posts: seq<Post>)
    ensures forall j, x :: 0 <= j < |posts| && x in TagValues(posts[j]) && Truthy(x) ==> x in AllTags(posts)
  {
    var all := FlatMap(posts, TagValues);
    var truthy := Filter(all, Truthy);
    var unique := Dedupe(truthy);
    var r := AllTags(posts);
    SortByPermutation(unique, ByStringKey(ToJsString));
    forall j, x | 0 <= j < |posts| && x in TagValues(posts[j]) && Truthy(x) ensures x in r {
      FlatMapMembers(posts, TagValues, x);
      var k :| 0 <= k < |all| && all[k] == x;
      FilterMembers(all, Truthy);
      assert x in truthy;
      assert x in unique;
      assert x in multiset(unique);
    }
  }

  // ---------------------------------------------------------------------------------------
  // Tag links

  /** `...(query ? { q: query } : {})`. */
  function QueryParam(query: string): seq<Field> {
    if query != "" then [Field("q", JStr(query))] else []
  }

  function NotTag(tag: string): string -> bool {
    t => t != tag
  }

  /** The query of the link on an active tag, which removes it from the selection. */
  function RemoveTagQuery(query: string, selected: seq<string>, tag: string): seq<Field> {
    QueryParam(query) + [Field("tags", JStr(Join(Filter(selected, NotTag(tag)), ",")))]
  }

  /** The query of the link on a post's tag, which adds it to the selection once. */
  function AddTagQuery(query: string, selected: seq<string>, tag: string): seq<Field> {
    QueryParam(query) + [Field("tags", JStr(Join(Dedupe(selected + [tag]), ",")))]
  }

  /** The `q` parameter is kept exactly when there is a query. */
  lemma TagLinksKeepQuery(query: string, selected: seq<string>, tag: string)
    ensures Get(RemoveTagQuery(query, selected, tag), "q") == if query != "" then JStr(query) else JUndefined
    ensures Get(AddTagQuery(query, selected, tag), "q") == if query != "" then JStr(query) else JUndefined
  {
    var removeTags := [Field("tags", JStr(Join(Filter(selected, NotTag(tag)), ",")))];
    var addTags := [Field("tags", JStr(Join(Dedupe(selected + [tag]), ",")))];
    if query != "" {
      assert RemoveTagQuery(query, selected, tag)[1..] == removeTags;
      assert AddTagQuery(query, selected, tag)[1..] == addTags;
    }
  }

  /** The `tags` parameter a link carries, as the page reads it back. */
  function TagsParam(params: seq<Field>): Option<string> {
    var v := Get(params, "tags");
    if v.JStr? then Some(v.s) else None
  }

  /** Following the link on an active tag selects the other tags, in their order. */
  lemma RemoveTagRoundTrip(query: string, selected: seq<string>, tag: string)
    requires forall i :: 0 <= i < |selected| ==> ',' !in selected[i]
    requires Filter(selected, NotTag(tag)) != [""]
    ensures SelectedTags(TagsParam(RemoveTagQuery(query, selected, tag))) == Filter(selected, NotTag(tag))
    ensures tag !in SelectedTags(TagsParam(RemoveTagQuery(query, selected, tag)))
  {
    var removed := Filter(selected, NotTag(tag));
    QueryParamHasNoTags(query);
    TagParamOf(QueryParam(query), Join(removed, ","));
    forall i | 0 <= i < |removed| ensures ',' !in removed[i] {
      FilterMembers(selected, NotTag(tag));
      assert removed[i] in selected;
    }
    TagsParamRoundTrip(removed);
  }

  /** Following the link on a post's tag selects the old tags and then that tag, each once. */
  lemma AddTagRoundTrip(query: string, selected: seq<string>, tag: string)
    requires forall i :: 0 <= i < |selected| ==> ',' !in selected[i]
    requires ',' !in tag
    requires Dedupe(selected + [tag]) != [""]
    ensures SelectedTags(TagsParam(AddTagQuery(query, selected, tag))) == Dedupe(selected + [tag])
    ensures tag in SelectedTags(TagsParam(AddTagQuery(query, selected, tag)))
  {
    var added := Dedupe(selected + [tag]);
    QueryParamHasNoTags(query);
    TagParamOf(QueryParam(query), Join(added, ","));
    AddedTags(selected, tag);
    TagsParamRoundTrip(added);
  }

  /**
   * The add link keeps the first occurrence of each selected tag, in order, and appends the
   * tag only when it is new; a selection without repeats is kept as it is.
   */
  lemma AddTagAppends(query: string, selected: seq<string>, tag: string)
    requires forall i :: 0 <= i < |selected| ==> ',' !in selected[i]
    requires ',' !in tag
    requires Dedupe(selected + [tag]) != [""]
    ensures SelectedTags(TagsParam(AddTagQuery(query, selected, tag)))
         == Dedupe(selected) + (if tag in selected then [] else [tag])
    ensures Distinct(selected) ==>
              SelectedTags(TagsParam(AddTagQuery(query, selected, tag))) == selected + (if tag in selected then [] else [tag])
  {
    AddTagRoundTrip(query, selected, tag);
    DedupeSnoc(selected, tag);
    if Distinct(selected) {
      DedupeOfDistinct(selected);
    }
  }

  lemma AddedTags(selected: seq<string>, tag: string)
    requires forall i :: 0 <= i < |selected| ==> ',' !in selected[i]
    requires ',' !in tag
    ensures forall i :: 0 <= i < |Dedupe(selected + [tag])| ==> ',' !in Dedupe(selected + [tag])[i]
    ensures tag in Dedupe(selected + [tag])
  {
    var both := selected + [tag];
    assert both[|selected|] == tag;
    forall i | 0 <= i < |Dedupe(both)| ensures ',' !in Dedupe(both)[i] {
      assert Dedupe(both)[i] in both;
    }
  }

  lemma QueryParamHasNoTags(query: string)
    ensures !HasKey(QueryParam(query), "tags")
  {
    if query != "" {
      assert QueryParam(query)[0].key == "q" != "tags";
      assert QueryParam(query)[1..] == [];
    }
  }

  lemma TagParamOf(prefix: seq<Field>, tags: string)
    requires !HasKey(prefix, "tags")
    ensures Get(prefix + [Field("tags", JStr(tags))], "tags") == JStr(tags)
  {
    HasKeyIff(prefix, "tags");
    GetFirst(prefix + [Field("tags", JStr(tags))], |prefix|);
  }
}
