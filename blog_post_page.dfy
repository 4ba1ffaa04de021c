/**
 * `components/blog-post-page.tsx`: the page of one post. It checks the post's category,
 * picks the social image and the canonical URL, and writes the schema.org data: a
 * `BlogPosting` followed by the schemas listed in the front matter, whose `type` and `id`
 * keys `convertTypeToAtType` renames to `@type` and `@id`.
 */
module BlogPostPage {
  import opened Wrappers
  import opened Strings
  import opened Json
  import opened Mdx

  // ---------------------------------------------------------------------------------------
  // convertTypeToAtType

  /** The key a property is stored under: `type` and `id` become `@type` and `@id`. */
  function NewKey(k: string): (r: string)
    ensures r != "type" && r != "id"
    ensures k != "type" && k != "id" ==> r == k
  {
    if k == "type" then "@type" else if k == "id" then "@id" else k
  }

  /** The entries of an object or an array are smaller than it. */
  lemma EntriesSmaller(v: Json)
    requires v.JArr? || v.JObj?
    ensures FieldsSize(Entries(v)) < Size(v)
  {
    if v.JArr? {
      SameSizes(Entries(v), v.items);
    }
  }

  lemma {:induction false} SameSizes(fs: seq<Field>, items: seq<Json>)
    requires |fs| == |items| && forall i :: 0 <= i < |fs| ==> fs[i].value == items[i]
    ensures FieldsSize(fs) == ItemsSize(items)
  {
    if |fs| > 0 {
      SameSizes(fs[1..], items[1..]);
    }
  }

  /**
   * `convertTypeToAtType(obj)`: a falsy value or a non-object is returned as it is; an object
   * or an array becomes an object holding its converted entries.
   */
  function Convert(v: Json): (r: Json)
    ensures !Truthy(v) || !(v.JArr? || v.JObj?) ==> r == v
    ensures Truthy(v) && (v.JArr? || v.JObj?) ==> r.JObj?
    decreases Size(v), 0
  {
    if !Truthy(v) || !(v.JArr? || v.JObj?) then v
    else
      EntriesSmaller(v);
      JObj(ConvertFrom([], Entries(v)))
  }

  /** The loop over the entries: each is assigned to `result` in turn. */
  function ConvertFrom(acc: seq<Field>, fs: seq<Field>): seq<Field>
    decreases FieldsSize(fs), 3
  {
    if |fs| == 0 then acc
    else ConvertFrom(Set(acc, NewKey(fs[0].key), ConvertEntry(fs[0])), fs[1..])
  }

  /** The value assigned for one entry: `type` and `id` values are copied without conversion. */
  function ConvertEntry(f: Field): Json
    decreases Size(f.value), 2
  {
    if f.key == "type" || f.key == "id" then f.value else ConvertValue(f.value)
  }

  /** Arrays are mapped element by element, objects converted, and everything else copied. */
  function ConvertValue(v: Json): (r: Json)
    ensures !v.JArr? && !v.JObj? ==> r == v
    decreases Size(v), 1
  {
    match v
    case JArr(items) => JArr(ConvertItems(items))
    case JObj(fs) => JObj(ConvertFrom([], fs))
    case _ => v
  }

  /** `value.map(item => convertTypeToAtType(item))`. */
  function ConvertItems(items: seq<Json>): (r: seq<Json>)
    ensures |r| == |items|
    decreases ItemsSize(items), 1
  {
    if |items| == 0 then [] else [Convert(items[0])] + ConvertItems(items[1..])
  }

  /** Each element of the mapped array is the converted element. */
  lemma {:induction false} ConvertItemsAt(items: seq<Json>)
    ensures forall i :: 0 <= i < |items| ==> ConvertItems(items)[i] == Convert(items[i])
  {
    if |items| > 0 {
      ConvertItemsAt(items[1..]);
      assert forall i :: 1 <= i < |items| ==> items[1..][i - 1] == items[i];
    }
  }

  /** `convertTypeToAtType`, assigning the converted entries to `result` one by one. */
  method ConvertTypeToAtType(obj: Json) returns (r: Json)
    ensures r == Convert(obj)
    decreases Size(obj), 0
  {
    if !Truthy(obj) || !(obj.JArr? || obj.JObj?) {
      return obj;
    }
    var entries := Entries(obj);
    EntriesSmaller(obj);
    var result: seq<Field> := [];
    for i := 0 to |entries|
      invariant ConvertFrom(result, entries[i..]) == ConvertFrom([], entries)
    {
      FieldSmaller(entries, i);
      assert entries[i..][0] == entries[i] && entries[i..][1..] == entries[i + 1..];
      var key, value := ConvertProperty(entries[i]);
      result := Set(result, key, value);
    }
    return JObj(result);
  }

  /** One pass of the loop: the key `result` is assigned at and the value assigned to it. */
  method ConvertProperty(f: Field) returns (key: string, value: Json)
    ensures key == NewKey(f.key) && value == ConvertEntry(f)
    decreases Size(f.value), 2
  {
    if f.key == "type" {
      key, value := "@type", f.value;
    } else if f.key == "id" {
      key, value := "@id", f.value;
    } else if f.value.JArr? {
      var mapped := MapConvert(f.value.items);
      key, value := f.key, JArr(mapped);
    } else if f.value.JObj? || f.value == JNull {
      key := f.key;
      value := ConvertTypeToAtType(f.value);
    } else {
      key, value := f.key, f.value;
    }
  }

  /** `value.map(item => convertTypeToAtType(item))`. */
  method MapConvert(items: seq<Json>) returns (mapped: seq<Json>)
    ensures mapped == ConvertItems(items)
    decreases ItemsSize(items), 1
  {
    mapped := [];
    for j := 0 to |items|
      invariant |mapped| == j && forall k :: 0 <= k < j ==> mapped[k] == Convert(items[k])
    {
      ItemSmaller(items, j);
      var item := ConvertTypeToAtType(items[j]);
      mapped := mapped + [item];
    }
    ConvertItemsAt(items);
  }

  /** The converting loop never writes a `type` or an `id` key. */
  lemma {:induction false} ConvertFromNoKey(acc: seq<Field>, fs: seq<Field>, k: string)
    requires k == "type" || k == "id"
    requires !HasKey(acc, k)
    ensures !HasKey(ConvertFrom(acc, fs), k)
    decreases |fs|
  {
    if |fs| > 0 {
      ConvertFromNoKey(Set(acc, NewKey(fs[0].key), ConvertEntry(fs[0])), fs[1..], k);
    }
  }

  /** The converting loop keeps property keys unique. */
  lemma {:induction false} ConvertFromUnique(acc: seq<Field>, fs: seq<Field>)
    requires UniqueKeys(acc)
    ensures UniqueKeys(ConvertFrom(acc, fs))
    decreases |fs|
  {
    if |fs| > 0 {
      ConvertFromUnique(Set(acc, NewKey(fs[0].key), ConvertEntry(fs[0])), fs[1..]);
    }
  }

  /** A converted object or array has no `type` and no `id` key. */
  lemma ConvertedHasNoTypeOrId(v: Json)
    requires Truthy(v) && (v.JArr? || v.JObj?)
    ensures !HasKey(Convert(v).fields, "type") && !HasKey(Convert(v).fields, "id")
  {
    ConvertFromNoKey([], Entries(v), "type");
    ConvertFromNoKey([], Entries(v), "id");
  }

  /** Any other key of an object keeps its value, converted. */
  lemma {:induction false} ConvertFromGet(acc: seq<Field>, fs: seq<Field>, k: string)
    requires UniqueKeys(fs)
    requires k != "type" && k != "id" && k != "@type" && k != "@id"
    ensures Get(ConvertFrom(acc, fs), k) == if HasKey(fs, k) then ConvertValue(Get(fs, k)) else Get(acc, k)
    decreases |fs|
  {
    if |fs| > 0 {
      var acc' := Set(acc, NewKey(fs[0].key), ConvertEntry(fs[0]));
      ConvertFromGet(acc', fs[1..], k);
    }
  }

  /** `type` (or `id`) is moved to `@type` (or `@id`) with its value unchanged. */
  lemma {:induction false} ConvertFromRenamed(acc: seq<Field>, fs: seq<Field>, src: string, dst: string)
    requires UniqueKeys(fs)
    requires (src == "type" && dst == "@type") || (src == "id" && dst == "@id")
    requires !HasKey(fs, dst)
    ensures Get(ConvertFrom(acc, fs), dst) == if HasKey(fs, src) then Get(fs, src) else Get(acc, dst)
    decreases |fs|
  {
    if |fs| > 0 {
      var acc' := Set(acc, NewKey(fs[0].key), ConvertEntry(fs[0]));
      ConvertFromRenamed(acc', fs[1..], src, dst);
    }
  }

  /**
   * On an object: `@type` and `@id` hold the old `type` and `id` values, and every other key
   * holds its converted value.
   */
  lemma ConvertObject(fs: seq<Field>, k: string)
    requires UniqueKeys(fs) && !HasKey(fs, "@type") && !HasKey(fs, "@id")
    ensures Get(Convert(JObj(fs)).fields, "@type") == Get(fs, "type")
    ensures Get(Convert(JObj(fs)).fields, "@id") == Get(fs, "id")
    ensures k != "type" && k != "id" && k != "@type" && k != "@id" ==>
              Get(Convert(JObj(fs)).fields, k) == ConvertValue(Get(fs, k))
  {
    ConvertFromRenamed([], fs, "type", "@type");
    ConvertFromRenamed([], fs, "id", "@id");
    if k != "type" && k != "id" && k != "@type" && k != "@id" {
      ConvertFromGet([], fs, k);
    }
  }

  // ---------------------------------------------------------------------------------------
  // Custom schemas

  const SchemaContext := JStr("https://schema.org")

  /** The own enumerable properties `{...v}` copies: an object's, an array's or a string's indices. */
  function SpreadFields(v: Json): seq<Field> {
    match v
    case JObj(fs) => fs
    case JArr(_) => Entries(v)
    case JStr(s) => seq(|s|, i requires 0 <= i < |s| => Field(NatToString(i), JStr([s[i]])))
    case _ => []
  }

  /** Reading `schema.type` throws on `null` and `undefined`. */
  predicate IsNullish(v: Json) {
    v == JUndefined || v == JNull
  }

  /** `schema.type`: only an object has the property. */
  function TypeOf(schema: Json): Json {
    if schema.JObj? then Get(schema.fields, "type") else JUndefined
  }

  /** `{ '@context': …, '@type': schema.type, ...convertTypeToAtType(schema), type: undefined }`. */
  function CustomSchema(schema: Json): seq<Field> {
    var base := [Field("@context", SchemaContext), Field("@type", TypeOf(schema))];
    Set(Spread(base, SpreadFields(Convert(schema))), "type", JUndefined)
  }

  /** The fields a front-matter schema object is spread into. */
  function SchemaBase(fs: seq<Field>): seq<Field> {
    [Field("@context", SchemaContext), Field("@type", Get(fs, "type"))]
  }

  /** A custom schema is the converted object spread over the base, with `type` cleared. */
  lemma CustomSchemaOfObject(fs: seq<Field>, k: string)
    requires UniqueKeys(fs)
    ensures Get(CustomSchema(JObj(fs)), "type") == JUndefined
    ensures k != "type" ==> Get(CustomSchema(JObj(fs)), k)
                            == if HasKey(ConvertFrom([], fs), k) then Get(ConvertFrom([], fs), k)
                               else Get(SchemaBase(fs), k)
  {
    ConvertFromUnique([], fs);
    SpreadGet(SchemaBase(fs), ConvertFrom([], fs), k);
  }

  /** A custom schema carries the schema.org context, unless the object sets its own. */
  lemma CustomSchemaContext(fs: seq<Field>)
    requires UniqueKeys(fs) && !HasKey(fs, "@context")
    ensures Get(CustomSchema(JObj(fs)), "@context") == SchemaContext
  {
    CustomSchemaOfObject(fs, "@context");
    forall i | 0 <= i < |fs| ensures NewKey(fs[i].key) != "@context" {
      HasKeyAt(fs, i);
    }
    ConvertedKeepsKeyAbsent([], fs, "@context");
    GetFirst(SchemaBase(fs), 0);
  }

  /** A custom schema's `@type` is the object's `type`, unless the object sets `@type` itself. */
  lemma CustomSchemaType(fs: seq<Field>)
    requires UniqueKeys(fs) && !HasKey(fs, "@type")
    ensures Get(CustomSchema(JObj(fs)), "@type") == Get(fs, "type")
  {
    CustomSchemaOfObject(fs, "@type");
    ConvertFromRenamed([], fs, "type", "@type");
    GetFirst(SchemaBase(fs), 1);
  }

  /** Every other property of the object is in the custom schema, converted. */
  lemma CustomSchemaOther(fs: seq<Field>, k: string)
    requires UniqueKeys(fs) && HasKey(fs, k)
    requires k != "type" && k != "id" && k != "@type" && k != "@id"
    ensures Get(CustomSchema(JObj(fs)), k) == ConvertValue(Get(fs, k))
  {
    CustomSchemaOfObject(fs, k);
    ConvertedKeepsKey([], fs, k);
    ConvertFromGet([], fs, k);
  }

  /** A key the loop writes is in the result. */
  lemma {:induction false} ConvertedKeepsKey(acc: seq<Field>, fs: seq<Field>, k: string)
    requires HasKey(fs, k) && k != "type" && k != "id"
    ensures HasKey(ConvertFrom(acc, fs), k)
    decreases |fs|
  {
    if |fs| > 0 {
      var acc' := Set(acc, NewKey(fs[0].key), ConvertEntry(fs[0]));
      if fs[0].key == k {
        ConvertedKeepsKeyFrom(acc', fs[1..], k);
      } else {
        ConvertedKeepsKey(acc', fs[1..], k);
      }
    }
  }

  lemma {:induction false} ConvertedKeepsKeyFrom(acc: seq<Field>, fs: seq<Field>, k: string)
    requires HasKey(acc, k)
    ensures HasKey(ConvertFrom(acc, fs), k)
    decreases |fs|
  {
    if |fs| > 0 {
      ConvertedKeepsKeyFrom(Set(acc, NewKey(fs[0].key), ConvertEntry(fs[0])), fs[1..], k);
    }
  }

  /** A key that is neither present nor written stays absent. */
  lemma {:induction false} ConvertedKeepsKeyAbsent(acc: seq<Field>, fs: seq<Field>, k: string)
    requires !HasKey(acc, k)
    requires forall i :: 0 <= i < |fs| ==> NewKey(fs[i].key) != k
    ensures !HasKey(ConvertFrom(acc, fs), k)
    decreases |fs|
  {
    if |fs| > 0 {
      assert NewKey(fs[0].key) != k;
      forall i | 0 <= i < |fs[1..]| ensures NewKey(fs[1..][i].key) != k {
        assert fs[1..][i] == fs[i + 1];
      }
      ConvertedKeepsKeyAbsent(Set(acc, NewKey(fs[0].key), ConvertEntry(fs[0])), fs[1..], k);
    }
  }

  /**
   * `post.frontMatter.schemas?.map(…) || []`: none for a missing list, one schema per element
   * for an array, and `None` when the expression throws: a non-array has no `map`, and a
   * `null` or `undefined` element has no `type`.
   */
  function CustomSchemas(schemas: Json): (r: Option<seq<Json>>)
    ensures IsNullish(schemas) ==> r == Some([])
    ensures schemas.JArr? && (forall i :: 0 <= i < |schemas.items| ==> !IsNullish(schemas.items[i])) ==>
              r.Some? && |r.value| == |schemas.items|
              && forall i :: 0 <= i < |schemas.items| ==> r.value[i] == JObj(CustomSchema(schemas.items[i]))
    ensures schemas.JArr? && (exists i :: 0 <= i < |schemas.items| && IsNullish(schemas.items[i])) ==> r.None?
    ensures !IsNullish(schemas) && !schemas.JArr? ==> r.None?
  {
    if IsNullish(schemas) then Some([])
    else if !schemas.JArr? then None
    else if exists i :: 0 <= i < |schemas.items| && IsNullish(schemas.items[i]) then None
    else Some(seq(|schemas.items|, i requires 0 <= i < |schemas.items| => JObj(CustomSchema(schemas.items[i]))))
  }

  // ---------------------------------------------------------------------------------------
  // The page

  /** The page's props; `articleSection` defaults to `'Blog'`. */
  datatype PageProps = PageProps(slug: string, category: Option<string>, backLink: string, articleSection: Option<string>)

  /** `notFound()`, or the page with its schemas, image and canonical URL. */
  datatype PostPage = NotFound | Shown(post: Post, schemas: seq<Json>, image: string, url: string)

  /** `category && post.frontMatter.category !== category`. */
  predicate WrongCategory(category: Option<string>, p: Post) {
    category.Some? && category.value != "" && Get(p.frontMatter, "category") != JStr(category.value)
  }

  /**
   * The front-matter image under the base URL, else the generated `/og?title=` image;
   * `None` when `encodeURIComponent` throws.
   */
  function PostImage(p: Post, baseUrl: string, encode: string -> Option<string>): (r: Option<string>)
    ensures Truthy(Get(p.frontMatter, "image")) ==> r == Some(baseUrl + ToJsString(Get(p.frontMatter, "image")))
    ensures !Truthy(Get(p.frontMatter, "image")) ==>
              (r.None? <==> encode(ToJsString(Get(p.frontMatter, "title"))).None?)
              && (r.Some? ==> r.value == baseUrl + "/og?title=" + encode(ToJsString(Get(p.frontMatter, "title"))).value)
  {
    var image := Get(p.frontMatter, "image");
    if Truthy(image) then Some(baseUrl + ToJsString(image))
    else
      match encode(ToJsString(Get(p.frontMatter, "title")))
      case None => None
      case Some(title) => Some(baseUrl + "/og?title=" + title)
  }

  /** `${baseUrl}${backLink}/${post.slug}`. */
  function PostUrl(baseUrl: string, backLink: string, slug: string): string {
    baseUrl + backLink + "/" + slug
  }

  /**
   * The default `BlogPosting` schema, its properties in the order the object literal lists
   * them.
   */
  function BlogPosting(p: Post, baseUrl: string, image: string, url: string, section: string): seq<Field> {
    var fm := p.frontMatter;
    PostingFields(Get(fm, "title"), Get(fm, "date"), Get(fm, "description"), Or(Get(fm, "tags"), JArr([])),
                  baseUrl, image, url, section)
  }

  /** The `BlogPosting` literal with the front-matter values as parameters. */
  function PostingFields(title: Json, date: Json, description: Json, keywords: Json,
                         baseUrl: string, image: string, url: string, section: string): seq<Field> {
    Prepend("@context", SchemaContext,
    Prepend("@type", JStr("BlogPosting"),
    Prepend("headline", title,
    Prepend("datePublished", date,
    Prepend("dateModified", date,
    Prepend("description", description,
    Prepend("image", JStr(image),
    Prepend("url", JStr(url),
    Prepend("author", JObj([Field("@type", JStr("Person")), Field("name", JStr("Kaivlya")), Field("url", JStr(baseUrl))]),
    Prepend("publisher", JObj([Field("@type", JStr("Organization")), Field("name", JStr("Kaivlya")),
                               Field("logo", JObj([Field("@type", JStr("ImageObject")),
                                                   Field("url", JStr(baseUrl + "/icons/icon.svg"))]))]),
    Prepend("mainEntityOfPage", WebPage(url),
    Prepend("keywords", keywords,
    Prepend("articleSection", JStr(section),
    Prepend("inLanguage", JStr("en-US"), []))))))))))))))
  }

  /** `{ '@type': 'WebPage', '@id': url }`. */
  function WebPage(url: string): Json {
    JObj([Field("@type", JStr("WebPage")), Field("@id", JStr(url))])
  }

  lemma PostingHeadGet(title: Json, date: Json, description: Json, keywords: Json,
                       baseUrl: string, image: string, url: string, section: string)
    ensures Get(PostingFields(title, date, description, keywords, baseUrl, image, url, section), "@type") == JStr("BlogPosting")
    ensures Get(PostingFields(title, date, description, keywords, baseUrl, image, url, section), "image") == JStr(image)
    ensures Get(PostingFields(title, date, description, keywords, baseUrl, image, url, section), "url") == JStr(url)
  {
    PrependGet();
  }

  lemma PostingPageGet(title: Json, date: Json, description: Json, keywords: Json,
                       baseUrl: string, image: string, url: string, section: string)
    ensures Get(PostingFields(title, date, description, keywords, baseUrl, image, url, section), "mainEntityOfPage") == WebPage(url)
  {
    PrependGet();
  }

  /**
   * The posting is a `BlogPosting` showing the chosen image, and its `url` and its
   * `mainEntityOfPage` `@id` both hold the canonical URL.
   */
  lemma BlogPostingLinks(p: Post, baseUrl: string, image: string, url: string, section: string)
    ensures Get(BlogPosting(p, baseUrl, image, url, section), "@type") == JStr("BlogPosting")
    ensures Get(BlogPosting(p, baseUrl, image, url, section), "image") == JStr(image)
    ensures Get(BlogPosting(p, baseUrl, image, url, section), "url") == JStr(url)
    ensures Get(BlogPosting(p, baseUrl, image, url, section), "mainEntityOfPage") == WebPage(url)
  {
    var fm := p.frontMatter;
    var title, date, description, keywords := Get(fm, "title"), Get(fm, "date"), Get(fm, "description"), Or(Get(fm, "tags"), JArr([]));
    PostingHeadGet(title, date, description, keywords, baseUrl, image, url, section);
    PostingPageGet(title, date, description, keywords, baseUrl, image, url, section);
  }

  /**
   * `BlogPostPage(props)` for the post `getPostBySlug` returned: not found without a post, with
   * a post of another category, or when building the image or the schemas throws.
   */
  function RenderPostPage(props: PageProps, post: Option<Post>, baseUrl: string, encode: string -> Option<string>): PostPage {
    if post.None? then NotFound
    else if WrongCategory(props.category, post.value) then NotFound
    else
      var p := post.value;
      match PostImage(p, baseUrl, encode)
      case None => NotFound
      case Some(image) =>
        var url := PostUrl(baseUrl, props.backLink, p.slug);
        match CustomSchemas(Get(p.frontMatter, "schemas"))
        case None => NotFound
        case Some(custom) =>
          Shown(p, [JObj(BlogPosting(p, baseUrl, image, url, props.articleSection.GetOr("Blog")))] + custom, image, url)
  }

  /** The page is not found exactly when there is no post, the category differs, or building the image or the schemas throws. */
  lemma NotFoundCases(props: PageProps, post: Option<Post>, baseUrl: string, encode: string -> Option<string>)
    ensures RenderPostPage(props, post, baseUrl, encode).NotFound? <==>
              post.None? || WrongCategory(props.category, post.value)
              || PostImage(post.value, baseUrl, encode).None?
              || CustomSchemas(Get(post.value.frontMatter, "schemas")).None?
  {
  }

  /**
   * A shown page lists the `BlogPosting` first and then one schema per front-matter schema, in
   * order, and uses the canonical URL and the chosen image.
   */
  lemma ShownPageSchemas(props: PageProps, post: Option<Post>, baseUrl: string, encode: string -> Option<string>)
    requires RenderPostPage(props, post, baseUrl, encode).Shown?
    ensures var page := RenderPostPage(props, post, baseUrl, encode);
            && post.Some? && page.post == post.value
            && page.url == PostUrl(baseUrl, props.backLink, post.value.slug)
            && PostImage(post.value, baseUrl, encode) == Some(page.image)
            && CustomSchemas(Get(post.value.frontMatter, "schemas")).Some?
            && page.schemas == [JObj(BlogPosting(post.value, baseUrl, page.image, page.url,
                                                 props.articleSection.GetOr("Blog")))]
                               + CustomSchemas(Get(post.value.frontMatter, "schemas")).value
  {
  }
}
