/**
 * `scripts/validateResources.ts`: the check of the resources bookmark file against its
 * schema. The root holds at least one category; a category has a slug, a title, a
 * description and at least one subcategory; a subcategory has a title, a description and
 * at least one link; a link has a name, a description and a URL.
 */
module ValidateResources {
  import opened Wrappers
  import opened Strings
  import opened Seqs
  import opened Json

  // ---------------------------------------------------------------------------------------
  // The schema as a validity predicate

  /** `z.string().min(1)`. */
  predicate NonEmptyString(v: Json) {
    v.JStr? && |v.s| >= 1
  }

  /** `z.string().url()`, with zod's URL test as `isUrl`. */
  predicate UrlString(v: Json, isUrl: string -> bool) {
    v.JStr? && isUrl(v.s)
  }

  /** `LinkSchema`. */
  predicate ValidLink(v: Json, isUrl: string -> bool) {
    v.JObj? && NonEmptyString(Get(v.fields, "name")) && NonEmptyString(Get(v.fields, "description"))
    && UrlString(Get(v.fields, "url"), isUrl)
  }

  /** `SubcategorySchema`. */
  predicate ValidSubcategory(v: Json, isUrl: string -> bool) {
    v.JObj? && NonEmptyString(Get(v.fields, "title")) && NonEmptyString(Get(v.fields, "description"))
    && var links := Get(v.fields, "links");
       links.JArr? && |links.items| >= 1 && forall i :: 0 <= i < |links.items| ==> ValidLink(links.items[i], isUrl)
  }

  /** `CategorySchema`. */
  predicate ValidCategory(v: Json, isUrl: string -> bool) {
    v.JObj? && NonEmptyString(Get(v.fields, "slug")) && NonEmptyString(Get(v.fields, "title"))
    && NonEmptyString(Get(v.fields, "description"))
    && var subs := Get(v.fields, "subcategories");
       subs.JArr? && |subs.items| >= 1 && forall i :: 0 <= i < |subs.items| ==> ValidSubcategory(subs.items[i], isUrl)
  }

  /** `ResourcesSchema`. */
  predicate ValidResources(v: Json, isUrl: string -> bool) {
    v.JObj?
    && var cats := Get(v.fields, "categories");
       cats.JArr? && |cats.items| >= 1 && forall i :: 0 <= i < |cats.items| ==> ValidCategory(cats.items[i], isUrl)
  }

  // ---------------------------------------------------------------------------------------
  // The issues `parse` reports

  /** The kinds of zod issue the schema can raise; their wording is zod's. */
  datatype IssueKind = ExpectedObject | ExpectedString | ExpectedArray | TooSmall | InvalidUrl

  /** A `ZodIssue`: where in the data and what. */
  datatype Issue = Issue(path: seq<string>, kind: IssueKind)

  /** A check of a value found at a path. */
  type Check = (Json, seq<string>) -> seq<Issue>

  function StringIssues(v: Json, path: seq<string>): (r: seq<Issue>)
    ensures |r| == 0 <==> NonEmptyString(v)
  {
    if !v.JStr? then [Issue(path, ExpectedString)]
    else if |v.s| < 1 then [Issue(path, TooSmall)]
    else []
  }

  function UrlIssues(v: Json, path: seq<string>, isUrl: string -> bool): (r: seq<Issue>)
    ensures |r| == 0 <==> UrlString(v, isUrl)
  {
    if !v.JStr? then [Issue(path, ExpectedString)]
    else if !isUrl(v.s) then [Issue(path, InvalidUrl)]
    else []
  }

  /** The elements from index `i` on, each checked at its index's path. */
  function ElementIssues(items: seq<Json>, path: seq<string>, check: Check, i: nat): seq<Issue>
    decreases |items| - i
  {
    if i >= |items| then [] else check(items[i], path + [NatToString(i)]) + ElementIssues(items, path, check, i + 1)
  }

  /** The elements raise no issue exactly when none of them does. */
  lemma {:induction false} ElementIssuesEmpty(items: seq<Json>, path: seq<string>, check: Check, i: nat)
    ensures |ElementIssues(items, path, check, i)| == 0 <==>
              forall j :: i <= j < |items| ==> |check(items[j], path + [NatToString(j)])| == 0
    decreases |items| - i
  {
    if i < |items| {
      ElementIssuesEmpty(items, path, check, i + 1);
    }
  }

  /** `z.array(element).min(1)`: the length check, then every element. */
  function ArrayIssues(v: Json, path: seq<string>, check: Check): seq<Issue> {
    if !v.JArr? then [Issue(path, ExpectedArray)]
    else (if |v.items| < 1 then [Issue(path, TooSmall)] else []) + ElementIssues(v.items, path, check, 0)
  }

  lemma ArrayIssuesEmpty(v: Json, path: seq<string>, check: Check)
    ensures |ArrayIssues(v, path, check)| == 0 <==>
              v.JArr? && |v.items| >= 1 && forall j :: 0 <= j < |v.items| ==> |check(v.items[j], path + [NatToString(j)])| == 0
  {
    if v.JArr? {
      ElementIssuesEmpty(v.items, path, check, 0);
    }
  }

  function LinkIssues(v: Json, path: seq<string>, isUrl: string -> bool): seq<Issue> {
    if !v.JObj? then [Issue(path, ExpectedObject)]
    else StringIssues(Get(v.fields, "name"), path + ["name"])
         + StringIssues(Get(v.fields, "description"), path + ["description"])
         + UrlIssues(Get(v.fields, "url"), path + ["url"], isUrl)
  }

  function LinkCheck(isUrl: string -> bool): Check {
    (v: Json, path: seq<string>) => LinkIssues(v, path, isUrl)
  }

  function SubcategoryIssues(v: Json, path: seq<string>, isUrl: string -> bool): seq<Issue> {
    if !v.JObj? then [Issue(path, ExpectedObject)]
    else StringIssues(Get(v.fields, "title"), path + ["title"])
         + StringIssues(Get(v.fields, "description"), path + ["description"])
         + ArrayIssues(Get(v.fields, "links"), path + ["links"], LinkCheck(isUrl))
  }

  function SubcategoryCheck(isUrl: string -> bool): Check {
    (v: Json, path: seq<string>) => SubcategoryIssues(v, path, isUrl)
  }

  function CategoryIssues(v: Json, path: seq<string>, isUrl: string -> bool): seq<Issue> {
    if !v.JObj? then [Issue(path, ExpectedObject)]
    else StringIssues(Get(v.fields, "slug"), path + ["slug"])
         + StringIssues(Get(v.fields, "title"), path + ["title"])
         + StringIssues(Get(v.fields, "description"), path + ["description"])
         + ArrayIssues(Get(v.fields, "subcategories"), path + ["subcategories"], SubcategoryCheck(isUrl))
  }

  function CategoryCheck(isUrl: string -> bool): Check {
    (v: Json, path: seq<string>) => CategoryIssues(v, path, isUrl)
  }

  /** `ResourcesSchema.parse(data)`'s issues, in the order zod reports them. */
  function ResourcesIssues(v: Json, isUrl: string -> bool): seq<Issue> {
    if !v.JObj? then [Issue([], ExpectedObject)]
    else ArrayIssues(Get(v.fields, "categories"), ["categories"], CategoryCheck(isUrl))
  }

  /** A link raises no issue exactly when it is valid. */
  lemma LinkIssuesEmpty(v: Json, path: seq<string>, isUrl: string -> bool)
    ensures |LinkIssues(v, path, isUrl)| == 0 <==> ValidLink(v, isUrl)
  {
  }

  lemma SubcategoryIssuesEmpty(v: Json, path: seq<string>, isUrl: string -> bool)
    ensures |SubcategoryIssues(v, path, isUrl)| == 0 <==> ValidSubcategory(v, isUrl)
  {
    if v.JObj? {
      var links := Get(v.fields, "links");
      ArrayIssuesEmpty(links, path + ["links"], LinkCheck(isUrl));
      if links.JArr? {
        forall j | 0 <= j < |links.items|
          ensures |LinkCheck(isUrl)(links.items[j], path + ["links"] + [NatToString(j)])| == 0 <==> ValidLink(links.items[j], isUrl)
        {
          LinkIssuesEmpty(links.items[j], path + ["links"] + [NatToString(j)], isUrl);
        }
      }
    }
  }

  lemma CategoryIssuesEmpty(v: Json, path: seq<string>, isUrl: string -> bool)
    ensures |CategoryIssues(v, path, isUrl)| == 0 <==> ValidCategory(v, isUrl)
  {
    if v.JObj? {
      var subs := Get(v.fields, "subcategories");
      ArrayIssuesEmpty(subs, path + ["subcategories"], SubcategoryCheck(isUrl));
      if subs.JArr? {
        forall j | 0 <= j < |subs.items|
          ensures |SubcategoryCheck(isUrl)(subs.items[j], path + ["subcategories"] + [NatToString(j)])| == 0
                  <==> ValidSubcategory(subs.items[j], isUrl)
        {
          SubcategoryIssuesEmpty(subs.items[j], path + ["subcategories"] + [NatToString(j)], isUrl);
        }
      }
    }
  }

  /** `parse` reports no issue exactly when the data satisfies the schema. */
  lemma ResourcesIssuesEmpty(v: Json, isUrl: string -> bool)
    ensures |ResourcesIssues(v, isUrl)| == 0 <==> ValidResources(v, isUrl)
  {
    if v.JObj? {
      var cats := Get(v.fields, "categories");
      ArrayIssuesEmpty(cats, ["categories"], CategoryCheck(isUrl));
      if cats.JArr? {
        forall j | 0 <= j < |cats.items|
          ensures |CategoryCheck(isUrl)(cats.items[j], ["categories"] + [NatToString(j)])| == 0
                  <==> ValidCategory(cats.items[j], isUrl)
        {
          CategoryIssuesEmpty(cats.items[j], ["categories"] + [NatToString(j)], isUrl);
        }
      }
    }
  }

  // ---------------------------------------------------------------------------------------
  // The script

  /** What the script ends with: its exit code and the lines it reports. */
  datatype Outcome = Outcome(exitCode: int, lines: seq<string>)

  /** `- ${err.path.join('.')}: ${err.message}`, with zod's message text as `message`. */
  function IssueLine(issue: Issue, message: IssueKind -> string): string {
    "- " + Join(issue.path, ".") + ": " + message(issue.kind)
  }

  /**
   * The script on the file's contents: `None` when reading or `JSON.parse` threw. Success
   * exits 0; a validation failure exits 1 with one line per issue; any other error exits 1.
   */
  function Run(data: Option<Json>, isUrl: string -> bool, message: IssueKind -> string): (o: Outcome)
    ensures data.None? ==> o.exitCode == 1
  {
    if data.None? then Outcome(1, [])
    else
      var issues := ResourcesIssues(data.value, isUrl);
      if |issues| == 0 then Outcome(0, [])
      else Outcome(1, seq(|issues|, i requires 0 <= i < |issues| => IssueLine(issues[i], message)))
  }

  /** The script exits 0 exactly when the file was read and satisfies the schema; otherwise 1, one line per issue. */
  lemma RunOutcome(data: Option<Json>, isUrl: string -> bool, message: IssueKind -> string)
    ensures Run(data, isUrl, message).exitCode == 0 <==> data.Some? && ValidResources(data.value, isUrl)
    ensures Run(data, isUrl, message).exitCode == 0 || Run(data, isUrl, message).exitCode == 1
    ensures data.Some? ==> |Run(data, isUrl, message).lines| == |ResourcesIssues(data.value, isUrl)|
  {
    if data.Some? {
      ResourcesIssuesEmpty(data.value, isUrl);
    }
  }
}
