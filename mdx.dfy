/**
 * `lib/mdx.ts`: the posts directory listing, loading and normalising one post, the list of
 * all posts newest first, and the read-time estimate.
 *
 * The filesystem, gray-matter, the MDX serializer and the clock are inputs (`PostSource`).
 * A post's front matter stays a JavaScript object (`seq<Field>`), because the pages read
 * fields of it with JavaScript's truthiness and `?.` rules.
 */
module Mdx {
  import opened Wrappers
  import opened Strings
  import opened Seqs
  import opened Json

  // ---------------------------------------------------------------------------------------
  // getPostSlugs

  /** A directory entry that is a post: its name ends in `.mdx` or `.md`. */
  predicate IsPostFile(name: string) {
    EndsWith(name, ".mdx") || EndsWith(name, ".md")
  }

  /** `name.replace(/\.mdx?$/, "")`. */
  function StripPostExtension(name: string): (r: string)
    ensures EndsWith(name, ".mdx") ==> r + ".mdx" == name
    ensures !EndsWith(name, ".mdx") && EndsWith(name, ".md") ==> r + ".md" == name
    ensures !IsPostFile(name) ==> r == name
  {
    if EndsWith(name, ".mdx") then name[..|name| - 4]
    else if EndsWith(name, ".md") then name[..|name| - 3]
    else name
  }

  /**
   * `getPostSlugs`: the post files of the listing with their extension removed, in listing
   * order. `listing` is `None` when reading the directory throws, and then there are none.
   */
  function PostSlugs(listing: Option<seq<string>>): (r: seq<string>)
    ensures listing.None? ==> r == []
    ensures listing.Some? ==> |r| == |Filter(listing.value, IsPostFile)|
    ensures listing.Some? ==> forall i :: 0 <= i < |r| ==>
              r[i] == StripPostExtension(Filter(listing.value, IsPostFile)[i])
  {
    match listing
    case None => []
    case Some(names) =>
      var files := Filter(names, IsPostFile);
      seq(|files|, i requires 0 <= i < |files| => StripPostExtension(files[i]))
  }

  /** Every slug comes from a post file of the listing, and every post file gives a slug. */
  lemma PostSlugsFromListing(names: seq<string>)
    ensures forall i :: 0 <= i < |PostSlugs(Some(names))| ==>
              var s := PostSlugs(Some(names))[i];
              s + ".mdx" in names || s + ".md" in names
    ensures forall j :: 0 <= j < |names| && IsPostFile(names[j]) ==>
              StripPostExtension(names[j]) in PostSlugs(Some(names))
  {
    var files := Filter(names, IsPostFile);
    var r := PostSlugs(Some(names));
    forall i | 0 <= i < |r| ensures r[i] + ".mdx" in names || r[i] + ".md" in names {
      FilterMembers(names, IsPostFile);
      assert files[i] in names && IsPostFile(files[i]);
    }
    forall j | 0 <= j < |names| && IsPostFile(names[j]) ensures StripPostExtension(names[j]) in r {
      FilterMembers(names, IsPostFile);
      assert names[j] in files;
      var k :| 0 <= k < |files| && files[k] == names[j];
      assert r[k] == StripPostExtension(names[j]);
    }
  }

  // ---------------------------------------------------------------------------------------
  // calculateReadTime

  /** `s.split(/\s+/)`: the pieces between maximal runs of whitespace. */
  function SplitWhitespace(s: string): (r: seq<string>)
    ensures |r| >= 1
    ensures forall i, k :: 0 <= i < |r| && 0 <= k < |r[i]| ==> !IsSpace(r[i][k])
    decreases |s|
  {
    if |s| == 0 then [""]
    else if IsSpace(s[0]) then
      [""] + SplitWhitespace(TrimStart(s))
    else
      var rest := SplitWhitespace(s[1..]);
      var first := [s[0]] + rest[0];
      assert forall k :: 1 <= k < |first| ==> first[k] == rest[0][k - 1];
      [first] + rest[1..]
  }

  lemma {:induction false} SplitWhitespacePrefix(w: string, t: string)
    requires forall k :: 0 <= k < |w| ==> !IsSpace(w[k])
    ensures SplitWhitespace(w + t) == [w + SplitWhitespace(t)[0]] + SplitWhitespace(t)[1..]
  {
    if |w| == 0 {
      assert w + t == t;
      assert w + SplitWhitespace(t)[0] == SplitWhitespace(t)[0];
      assert [SplitWhitespace(t)[0]] + SplitWhitespace(t)[1..] == SplitWhitespace(t);
    } else {
      var tail := SplitWhitespace(t);
      assert (w + t)[0] == w[0] && (w + t)[1..] == w[1..] + t;
      var rest := SplitWhitespace(w[1..] + t);
      assert SplitWhitespace(w + t) == [[w[0]] + rest[0]] + rest[1..];
      SplitWhitespacePrefix(w[1..], t);
      assert rest[0] == w[1..] + tail[0] && rest[1..] == tail[1..];
      assert [w[0]] + (w[1..] + tail[0]) == w + tail[0];
    }
  }

  /** Words separated by single spaces split back into the words. */
  lemma {:induction false} SplitWhitespaceOfWords(words: seq<string>)
    requires |words| >= 1
    requires forall i :: 0 <= i < |words| ==> |words[i]| > 0
    requires forall i, k :: 0 <= i < |words| && 0 <= k < |words[i]| ==> !IsSpace(words[i][k])
    ensures SplitWhitespace(Join(words, " ")) == words
  {
    if |words| == 1 {
      SplitWhitespacePrefix(words[0], "");
      assert words[0] + "" == words[0];
    } else {
      var tail := Join(words[1..], " ");
      SplitWhitespaceOfWords(words[1..]);
      JoinStartsWithFirst(words[1..]);
      var t := " " + tail;
      assert TrimStart(t) == tail by {
        assert t[1..] == tail;
      }
      assert SplitWhitespace(t) == [""] + words[1..];
      SplitWhitespacePrefix(words[0], t);
      assert Join(words, " ") == words[0] + t;
      assert words[0] + "" == words[0];
      assert [words[0]] + words[1..] == words;
    }
  }

  lemma {:induction false} JoinStartsWithFirst(words: seq<string>)
    requires |words| >= 1 && |words[0]| > 0
    ensures |Join(words, " ")| > 0 && Join(words, " ")[0] == words[0][0]
  {
  }

  const WordsPerMinute := 175

  /** `Math.ceil(n / d)` for positive `d`, on integers. */
  function CeilDiv(n: nat, d: nat): (q: nat)
    requires d > 0
    ensures d * q >= n
    ensures q > 0 ==> d * (q - 1) < n
  {
    (n + d - 1) / d
  }

  /** `calculateReadTime`: minutes at 175 words a minute, rounded up, as `"<n> min read"`. */
  function CalculateReadTime(content: string): string {
    NatToString(CeilDiv(|SplitWhitespace(content)|, WordsPerMinute)) + " min read"
  }

  /** The estimate is always at least one minute, because a split has at least one piece. */
  lemma ReadTimeAtLeastOne(content: string)
    ensures CeilDiv(|SplitWhitespace(content)|, WordsPerMinute) >= 1
  {
  }

  /** A text of `n` words separated by single spaces reads in `ceil(n / 175)` minutes. */
  lemma ReadTimeOfWords(words: seq<string>)
    requires |words| >= 1
    requires forall i :: 0 <= i < |words| ==> |words[i]| > 0
    requires forall i, k :: 0 <= i < |words| && 0 <= k < |words[i]| ==> !IsSpace(words[i][k])
    ensures CalculateReadTime(Join(words, " ")) == NatToString(CeilDiv(|words|, WordsPerMinute)) + " min read"
  {
    SplitWhitespaceOfWords(words);
  }

  // ---------------------------------------------------------------------------------------
  // getPostBySlug

  /** What gray-matter returns: the front matter object and the body. */
  datatype Parsed = Parsed(data: seq<Field>, content: string)

  /** A post: its slug, its normalised front matter and its serialized body (an object). */
  datatype Post = Post(slug: string, frontMatter: seq<Field>, content: Json)

  /**
   * The outside world of `getPostBySlug`. `listing` is `readdirSync`; `fileExists` and `read` are the filesystem on file
   * names in the posts directory (`existsSync` and `readFileSync`), `matter` is gray-matter, `serialize` the MDX serializer
   * returning the fields of its result object, and `now` is `new Date().toISOString()`.
   * `None` from `read`, `matter` or `serialize` is the call throwing.
   */
  datatype PostSource = PostSource(
    listing: Option<seq<string>>,
    fileExists: string -> bool,
    read: string -> Option<string>,
    matter: string -> Option<Parsed>,
    serialize: string -> Option<seq<Field>>,
    now: string)

  /** The file a post is read from: `<slug>.mdx` when it exists, else `<slug>.md`, else none. */
  function ChoosePath(src: PostSource, slug: string): (r: Option<string>)
    ensures src.fileExists(slug + ".mdx") ==> r == Some(slug + ".mdx")
    ensures !src.fileExists(slug + ".mdx") && src.fileExists(slug + ".md") ==> r == Some(slug + ".md")
    ensures r.None? <==> !src.fileExists(slug + ".mdx") && !src.fileExists(slug + ".md")
  {
    if src.fileExists(slug + ".mdx") then Some(slug + ".mdx")
    else if src.fileExists(slug + ".md") then Some(slug + ".md")
    else None
  }

  /** The trimmed pieces of `s.split(',')`, as strings. */
  function TrimmedPieces(s: string): (r: seq<Json>)
    ensures |r| == |Split(s, ',')|
    ensures forall i :: 0 <= i < |r| ==> r[i] == JStr(Trim(Split(s, ',')[i]))
  {
    var pieces := Split(s, ',');
    seq(|pieces|, i requires 0 <= i < |pieces| => JStr(Trim(pieces[i])))
  }

  /** `[a, b]` has its brackets removed before splitting; any other string is split as is. */
  function TagString(s: string): string {
    if StartsWith(s, "[") && EndsWith(s, "]") then
      assert s[0] == s[..1][0] && s[|s| - 1] == s[|s| - 1..][0];
      s[1..|s| - 1]
    else s
  }

  /**
   * The tags rule: a truthy value that is not an array becomes an array, the trimmed
   * comma-separated pieces of a string or `[]` for anything else; arrays and falsy values
   * are kept.
   */
  function NormaliseTags(v: Json): (r: Json)
    ensures !Truthy(v) || v.JArr? ==> r == v
    ensures Truthy(v) && v.JStr? ==> r == JArr(TrimmedPieces(TagString(v.s)))
    ensures Truthy(v) && !v.JStr? && !v.JArr? ==> r == JArr([])
  {
    if Truthy(v) && !v.JArr? then
      if v.JStr? then JArr(TrimmedPieces(TagString(v.s))) else JArr([])
    else v
  }

  /** A bracketed list of comma-free, untrimmed-free tags is read back as exactly those tags. */
  lemma BracketedTagsRoundTrip(tags: seq<string>)
    requires |tags| >= 1
    requires forall i :: 0 <= i < |tags| ==> ',' !in tags[i] && Trim(tags[i]) == tags[i]
    ensures NormaliseTags(JStr("[" + Join(tags, ",") + "]"))
         == JArr(seq(|tags|, i requires 0 <= i < |tags| => JStr(tags[i])))
  {
    UnbracketJoined(Join(tags, ","));
    TrimmedPiecesOfJoin(tags);
  }

  lemma TrimmedPiecesOfJoin(tags: seq<string>)
    requires |tags| >= 1
    requires forall i :: 0 <= i < |tags| ==> ',' !in tags[i] && Trim(tags[i]) == tags[i]
    ensures TrimmedPieces(Join(tags, ",")) == seq(|tags|, i requires 0 <= i < |tags| => JStr(tags[i]))
  {
    SplitJoin(tags, ',');
  }

  lemma UnbracketJoined(inner: string)
    ensures TagString("[" + inner + "]") == inner
  {
    var s := "[" + inner + "]";
    assert s[..1] == "[" && s[|s| - 1..] == "]";
    assert s[1..|s| - 1] == inner;
  }

  /** `data` after `getPostBySlug`'s in-place updates of `readTime` and `tags`. */
  function NormaliseData(data: seq<Field>, content: string): (r: seq<Field>)
    ensures UniqueKeys(data) ==> UniqueKeys(r)
  {
    var d := if !Truthy(Get(data, "readTime")) then Set(data, "readTime", JStr(CalculateReadTime(content)))
             else data;
    var tags := Get(d, "tags");
    if Truthy(tags) && !tags.JArr? then Set(d, "tags", NormaliseTags(tags)) else d
  }

  /** The object the spread of `data` is laid over, holding each default. */
  function Defaults(data: seq<Field>, now: string): seq<Field> {
    DefaultsObject(Or(Get(data, "title"), JStr("Untitled")), Or(Get(data, "date"), JStr(now)),
                   Or(Get(data, "description"), JStr("")), Or(Get(data, "tags"), JArr([])),
                   Get(data, "readTime"), Or(Get(data, "clientSide"), JBool(false)))
  }

  /** The literal `{ title, date, description, tags, readTime, clientSide }`. */
  function DefaultsObject(title: Json, date: Json, description: Json, tags: Json, readTime: Json, clientSide: Json): seq<Field> {
    [ Field("title", title), Field("date", date), Field("description", description),
      Field("tags", tags), Field("readTime", readTime), Field("clientSide", clientSide) ]
  }

  /** `{ title: …, date: …, …, ...data }`. */
  function FrontMatterOf(data: seq<Field>, now: string): seq<Field> {
    Spread(Defaults(data, now), data)
  }

  /** `serializedContent`: the serializer's object, or the empty one its failure is replaced by. */
  function SerializedContent(src: PostSource, content: string): (r: Json)
    ensures r.JObj?
  {
    match src.serialize(content)
    case Some(fields) => JObj(fields)
    case None => JObj([Field("compiledSource", JStr("")), Field("frontmatter", JObj([])), Field("scope", JObj([]))])
  }

  /** The post read from file `path`, or `None` when reading or parsing it throws. */
  function LoadFile(src: PostSource, slug: string, path: string): Option<Post> {
    match src.read(path)
    case None => None
    case Some(text) =>
      match src.matter(text)
      case None => None
      case Some(parsed) =>
        var data := NormaliseData(parsed.data, parsed.content);
        Some(Post(slug, FrontMatterOf(data, src.now), SerializedContent(src, parsed.content)))
  }

  /** What `getPostBySlug(slug)` resolves to. */
  function LoadPost(src: PostSource, slug: string): Option<Post> {
    match ChoosePath(src, slug)
    case None => None
    case Some(path) => LoadFile(src, slug, path)
  }

  /** `getPostBySlug`, updating the parsed front matter in place as the source does. */
  method GetPostBySlug(src: PostSource, slug: string) returns (post: Option<Post>)
    ensures post == LoadPost(src, slug)
  {
    var filePath: string;
    if src.fileExists(slug + ".mdx") {
      filePath := slug + ".mdx";
    } else if src.fileExists(slug + ".md") {
      filePath := slug + ".md";
    } else {
      return None;
    }
    var fileContents := src.read(filePath);
    if fileContents.None? {
      return None;
    }
    var parsed := src.matter(fileContents.value);
    if parsed.None? {
      return None;
    }
    var data := parsed.value.data;
    var content := parsed.value.content;
    if !Truthy(Get(data, "readTime")) {
      data := Set(data, "readTime", JStr(CalculateReadTime(content)));
    }
    var tags := Get(data, "tags");
    if Truthy(tags) && !tags.JArr? {
      if tags.JStr? {
        data := Set(data, "tags", JArr(TrimmedPieces(TagString(tags.s))));
      } else {
        data := Set(data, "tags", JArr([]));
      }
    }
    var frontMatter := Spread(Defaults(data, src.now), data);
    var serializedContent := SerializedContent(src, content);
    post := Some(Post(slug, frontMatter, serializedContent));
  }

  /** The `.mdx` file wins whenever it exists; the `.md` file is read only when it does not. */
  lemma LoadPostPrefersMdx(src: PostSource, slug: string)
    ensures src.fileExists(slug + ".mdx") ==> LoadPost(src, slug) == LoadFile(src, slug, slug + ".mdx")
    ensures !src.fileExists(slug + ".mdx") && src.fileExists(slug + ".md") ==>
              LoadPost(src, slug) == LoadFile(src, slug, slug + ".md")
    ensures !src.fileExists(slug + ".mdx") && !src.fileExists(slug + ".md") ==> LoadPost(src, slug) == None
  {
  }

  /** A loaded post has the slug it was asked for and an object as its content. */
  lemma LoadPostShape(src: PostSource, slug: string)
    ensures LoadPost(src, slug).Some? ==>
              LoadPost(src, slug).value.slug == slug && LoadPost(src, slug).value.content.JObj?
  {
  }

  /** A truthy `readTime` is kept; otherwise the estimate from the body is stored. */
  lemma NormaliseDataReadTime(data: seq<Field>, content: string)
    ensures Get(NormaliseData(data, content), "readTime")
         == if Truthy(Get(data, "readTime")) then Get(data, "readTime") else JStr(CalculateReadTime(content))
    ensures HasKey(NormaliseData(data, content), "readTime")
  {
    var d := if !Truthy(Get(data, "readTime")) then Set(data, "readTime", JStr(CalculateReadTime(content)))
             else data;
  }

  /** The tags are normalised; every key other than `readTime` and `tags` is untouched. */
  lemma NormaliseDataTags(data: seq<Field>, content: string)
    ensures Get(NormaliseData(data, content), "tags") == NormaliseTags(Get(data, "tags"))
    ensures forall k :: k != "readTime" && k != "tags" ==> Get(NormaliseData(data, content), k) == Get(data, k)
    ensures forall k :: k != "readTime" ==> (HasKey(NormaliseData(data, content), k) <==> HasKey(data, k))
  {
    var d := if !Truthy(Get(data, "readTime")) then Set(data, "readTime", JStr(CalculateReadTime(content)))
             else data;
    assert Get(d, "tags") == Get(data, "tags");
    var tags := Get(d, "tags");
    if Truthy(tags) && !tags.JArr? {
      assert HasKey(d, "tags");
    }
  }

  lemma DefaultsUnique(data: seq<Field>, now: string)
    ensures UniqueKeys(Defaults(data, now))
  {
    UniqueKeysIff(Defaults(data, now));
  }

  /**
   * The front matter is an object: no key occurs twice, and its keys are the six default keys
   * together with the keys of the data.
   */
  lemma FrontMatterKeys(data: seq<Field>, now: string)
    ensures UniqueKeys(FrontMatterOf(data, now))
    ensures forall k :: HasKey(FrontMatterOf(data, now), k) <==>
              k in ["title", "date", "description", "tags", "readTime", "clientSide"] || HasKey(data, k)
  {
    DefaultsUnique(data, now);
    DefaultsKeys(data, now);
  }

  /** The keys of the defaults object are exactly its six literal keys. */
  lemma DefaultsKeys(data: seq<Field>, now: string)
    ensures forall k :: HasKey(Defaults(data, now), k) <==>
              k in ["title", "date", "description", "tags", "readTime", "clientSide"]
  {
    var d := Defaults(data, now);
    var keys := ["title", "date", "description", "tags", "readTime", "clientSide"];
    assert forall i :: 0 <= i < |d| ==> d[i].key == keys[i];
    forall k ensures HasKey(d, k) <==> k in keys {
      HasKeyIff(d, k);
    }
  }

  /**
   * The front matter takes every key present in the (normalised) data from the data; the
   * defaults apply only to keys the data lacks, because the spread comes last.
   */
  lemma FrontMatterDefaults(data: seq<Field>, now: string)
    requires UniqueKeys(data)
    ensures Get(FrontMatterOf(data, now), "title") == if HasKey(data, "title") then Get(data, "title") else JStr("Untitled")
    ensures Get(FrontMatterOf(data, now), "date") == if HasKey(data, "date") then Get(data, "date") else JStr(now)
    ensures Get(FrontMatterOf(data, now), "description")
         == if HasKey(data, "description") then Get(data, "description") else JStr("")
    ensures Get(FrontMatterOf(data, now), "tags") == if HasKey(data, "tags") then Get(data, "tags") else JArr([])
    ensures Get(FrontMatterOf(data, now), "clientSide")
         == if HasKey(data, "clientSide") then Get(data, "clientSide") else JBool(false)
    ensures forall k :: HasKey(data, k) ==> Get(FrontMatterOf(data, now), k) == Get(data, k)
  {
    DefaultsGet(data, now);
    FrontMatterKey(data, now, "title", JStr("Untitled"));
    FrontMatterKey(data, now, "date", JStr(now));
    FrontMatterKey(data, now, "description", JStr(""));
    FrontMatterKey(data, now, "tags", JArr([]));
    FrontMatterKey(data, now, "clientSide", JBool(false));
    forall k | HasKey(data, k) ensures Get(FrontMatterOf(data, now), k) == Get(data, k) {
      SpreadGet(Defaults(data, now), data, k);
    }
  }

  /** A key whose default is `Or(data[k], value)` is the data's when present and `value` otherwise. */
  lemma FrontMatterKey(data: seq<Field>, now: string, k: string, value: Json)
    requires UniqueKeys(data)
    requires Get(Defaults(data, now), k) == Or(Get(data, k), value)
    ensures Get(FrontMatterOf(data, now), k) == if HasKey(data, k) then Get(data, k) else value
  {
    SpreadGet(Defaults(data, now), data, k);
  }

  /** The defaults object holds each default under its key. */
  lemma DefaultsGet(data: seq<Field>, now: string)
    ensures Get(Defaults(data, now), "title") == Or(Get(data, "title"), JStr("Untitled"))
    ensures Get(Defaults(data, now), "date") == Or(Get(data, "date"), JStr(now))
    ensures Get(Defaults(data, now), "description") == Or(Get(data, "description"), JStr(""))
    ensures Get(Defaults(data, now), "tags") == Or(Get(data, "tags"), JArr([]))
    ensures Get(Defaults(data, now), "clientSide") == Or(Get(data, "clientSide"), JBool(false))
  {
    DefaultsObjectGet(Or(Get(data, "title"), JStr("Untitled")), Or(Get(data, "date"), JStr(now)),
                      Or(Get(data, "description"), JStr("")), Or(Get(data, "tags"), JArr([])),
                      Get(data, "readTime"), Or(Get(data, "clientSide"), JBool(false)));
  }

  lemma DefaultsObjectGet(title: Json, date: Json, description: Json, tags: Json, readTime: Json, clientSide: Json)
    ensures var d := DefaultsObject(title, date, description, tags, readTime, clientSide);
            && Get(d, "title") == title && Get(d, "date") == date && Get(d, "description") == description
            && Get(d, "tags") == tags && Get(d, "readTime") == readTime && Get(d, "clientSide") == clientSide
  {
    var d := DefaultsObject(title, date, description, tags, readTime, clientSide);
    GetFirst(d, 0);
    GetFirst(d, 1);
    GetFirst(d, 2);
    GetFirst(d, 3);
    GetFirst(d, 4);
    GetFirst(d, 5);
  }

  // ---------------------------------------------------------------------------------------
  // getAllPosts

  /** `new Date(post.frontMatter.date).getTime()`, with the date parser `timeOf` as an input. */
  function PostTime(timeOf: Json -> int): Post -> int {
    (p: Post) => timeOf(Get(p.frontMatter, "date"))
  }

  /** The comparator of `getAllPosts`: later dates first. */
  function NewestFirst(timeOf: Json -> int): (Post, Post) -> bool {
    ByKeyDescending(PostTime(timeOf))
  }

  /**
   * Fuse.js over posts: the posts it ranks close enough to the query, or `None` when it
   * throws. It is a foreign library, so the pages take it as an input.
   */
  type Fuzzy = (seq<Post>, string) -> Option<seq<Post>>

  /**
   * What the pages' `.map(result => result.item)` guarantees whatever the scores: every post
   * the fuzzy search returns is one of the posts it searched.
   */
  ghost predicate ResultsFromInput(fuzzy: Fuzzy) {
    forall posts, q :: fuzzy(posts, q).Some? ==>
      forall i :: 0 <= i < |fuzzy(posts, q).value| ==> fuzzy(posts, q).value[i] in posts
  }

  /** `slugs.map(getPostBySlug)`. */
  function LoadAll(src: PostSource, slugs: seq<string>): (r: seq<Option<Post>>)
    ensures |r| == |slugs|
    ensures forall i :: 0 <= i < |slugs| ==> r[i] == LoadPost(src, slugs[i])
  {
    seq(|slugs|, i requires 0 <= i < |slugs| => LoadPost(src, slugs[i]))
  }

  /** `getAllPosts`: every post that loads, newest first. */
  function GetAllPosts(src: PostSource, timeOf: Json -> int): (r: seq<Post>)
    ensures multiset(r) == multiset(Somes(LoadAll(src, PostSlugs(src.listing))))
  {
    SortByPermutation(Somes(LoadAll(src, PostSlugs(src.listing))), NewestFirst(timeOf));
    SortBy(Somes(LoadAll(src, PostSlugs(src.listing))), NewestFirst(timeOf))
  }

  /** The posts are in order of date, newest first. */
  lemma GetAllPostsNewestFirst(src: PostSource, timeOf: Json -> int)
    ensures forall i, j :: 0 <= i < j < |GetAllPosts(src, timeOf)| ==>
              PostTime(timeOf)(GetAllPosts(src, timeOf)[i]) >= PostTime(timeOf)(GetAllPosts(src, timeOf)[j])
  {
    KeyOrdersAreStrictWeak(PostTime(timeOf));
    SortBySorted(Somes(LoadAll(src, PostSlugs(src.listing))), NewestFirst(timeOf));
  }

  /**
   * Each listed post is what `getPostBySlug` returns for one of the slugs, and every slug
   * whose post loads contributes that post.
   */
  lemma GetAllPostsAreLoaded(src: PostSource, timeOf: Json -> int)
    ensures forall i :: 0 <= i < |GetAllPosts(src, timeOf)| ==>
              exists j :: 0 <= j < |PostSlugs(src.listing)|
                          && LoadAll(src, PostSlugs(src.listing))[j] == Some(GetAllPosts(src, timeOf)[i])
    ensures forall j :: 0 <= j < |PostSlugs(src.listing)| && LoadAll(src, PostSlugs(src.listing))[j].Some? ==>
              LoadAll(src, PostSlugs(src.listing))[j].value in GetAllPosts(src, timeOf)
  {
    SomesPermutation(LoadAll(src, PostSlugs(src.listing)), GetAllPosts(src, timeOf));
  }

  /** Posts with the same date keep the order of the directory listing. */
  lemma GetAllPostsStable(src: PostSource, timeOf: Json -> int, p: Post)
    ensures TiedWith(GetAllPosts(src, timeOf), NewestFirst(timeOf), p)
         == TiedWith(Somes(LoadAll(src, PostSlugs(src.listing))), NewestFirst(timeOf), p)
  {
    KeyOrdersAreStrictWeak(PostTime(timeOf));
    SortByStable(Somes(LoadAll(src, PostSlugs(src.listing))), NewestFirst(timeOf), p);
  }
}
