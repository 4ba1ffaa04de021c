/**
 * `components/breadcrumbs.tsx`: the trail of links derived from the current path. Each
 * non-empty path segment gives one crumb whose link is the path up to that segment; a Home
 * crumb comes first, the JSON-LD list numbers the crumbs from 1, and the last crumb is
 * plain text.
 */
module Breadcrumbs {
  import opened Strings
  import opened Seqs

  /** A `BreadcrumbItem`: what is shown and where it links. */
  datatype Crumb = Crumb(caption: string, href: string)

  /** `filter(Boolean)` on strings. */
  predicate NonEmpty(s: string) {
    s != ""
  }

  /** A path segment as `Segments` produces it. */
  predicate IsSegment(s: string) {
    s != "" && '/' !in s
  }

  /** `pathname.split('/').filter(Boolean)`. */
  function Segments(pathname: string): (r: seq<string>)
    ensures forall i :: 0 <= i < |r| ==> IsSegment(r[i])
  {
    FilterMembers(Split(pathname, '/'), NonEmpty);
    Filter(Split(pathname, '/'), NonEmpty)
  }

  /** The segments are the non-empty pieces between slashes, in order. */
  lemma SegmentsMembers(pathname: string)
    ensures forall i :: 0 <= i < |Segments(pathname)| ==> Segments(pathname)[i] in Split(pathname, '/')
    ensures forall i :: 0 <= i < |Split(pathname, '/')| && Split(pathname, '/')[i] != "" ==>
              Split(pathname, '/')[i] in Segments(pathname)
  {
    FilterMembers(Split(pathname, '/'), NonEmpty);
  }

  /** `segment.charAt(0).toUpperCase() + segment.slice(1)`. */
  function Capitalize(segment: string): (r: string)
    ensures |r| == |segment|
    ensures forall i :: 1 <= i < |segment| ==> r[i] == segment[i]
    ensures |segment| > 0 ==> !IsLowerAscii(r[0])
  {
    if segment == "" then "" else [UpperChar(segment[0])] + segment[1..]
  }

  /** A caption differs from its segment only in the case of the first letter. */
  lemma CapitalizeKeepsLetters(segment: string)
    ensures ToLower(Capitalize(segment)) == ToLower(segment)
    ensures Capitalize(Capitalize(segment)) == Capitalize(segment)
  {
    if segment != "" {
      var c := segment[0];
      if IsLowerAscii(c) {
        assert LowerChar(UpperChar(c)) == c;
      }
      assert ToLower(Capitalize(segment))[0] == ToLower(segment)[0];
    }
  }

  /** The link of the crumb for the first `n` segments. */
  function Href(segments: seq<string>, n: nat): string
    requires n <= |segments|
  {
    "/" + Join(segments[..n], "/")
  }

  /** The crumbs the `reduce` builds, one per segment. */
  function Trail(segments: seq<string>): (r: seq<Crumb>)
    ensures |r| == |segments|
  {
    seq(|segments|, i requires 0 <= i < |segments| => Crumb(Capitalize(segments[i]), Href(segments, i + 1)))
  }

  /** The `reduce`, pushing one crumb per segment onto the accumulator. */
  method BuildTrail(segments: seq<string>) returns (acc: seq<Crumb>)
    ensures acc == Trail(segments)
  {
    acc := [];
    for index := 0 to |segments|
      invariant acc == Trail(segments)[..index]
    {
      var href := "/" + Join(segments[..index + 1], "/");
      var caption := Capitalize(segments[index]);
      acc := acc + [Crumb(caption, href)];
    }
  }

  const Home := Crumb("Home", "/")

  /** `[{ label: 'Home', href: '/' }, ...breadcrumbs]`. */
  function Items(pathname: string): seq<Crumb> {
    [Home] + Trail(Segments(pathname))
  }

  /** The component's items: the segments, the trail, and Home in front. */
  method BreadcrumbItems(pathname: string) returns (items: seq<Crumb>)
    ensures items == Items(pathname)
  {
    var segments := Filter(Split(pathname, '/'), NonEmpty);
    var trail := BuildTrail(segments);
    items := [Home] + trail;
  }

  lemma {:induction false} JoinSnoc(parts: seq<string>, x: string, sep: string)
    requires |parts| >= 1
    ensures Join(parts + [x], sep) == Join(parts, sep) + sep + x
  {
    if |parts| > 1 {
      assert (parts + [x])[1..] == parts[1..] + [x];
      JoinSnoc(parts[1..], x, sep);
    }
  }

  /** Parsing a crumb's link gives back the segments it was built from. */
  lemma SegmentsOfHref(parts: seq<string>)
    requires forall i :: 0 <= i < |parts| ==> IsSegment(parts[i])
    ensures Segments("/" + Join(parts, "/")) == parts
  {
    if |parts| == 0 {
      RootSegments();
    } else {
      var joined := Join(parts, "/");
      LeadingSlash(joined);
      SplitJoin(parts, '/');
      DropLeadingEmpty(parts);
    }
  }

  /** A leading slash puts an empty piece in front. */
  lemma LeadingSlash(t: string)
    ensures Split("/" + t, '/') == [""] + Split(t, '/')
  {
    SplitAfterPrefix("", t, '/');
    assert "" + ['/'] + t == "/" + t;
  }

  /** The root path has no segments. */
  lemma RootSegments()
    ensures Segments("/") == []
  {
    SplitAfterPrefix("", "", '/');
    assert "" + ['/'] + "" == "/";
    SplitNoSeparator("", '/');
    var pieces := [""] + [""];
    assert pieces[1..] == [""];
    assert Filter(pieces, NonEmpty) == [];
  }

  /** The empty piece before a leading slash is filtered away. */
  lemma DropLeadingEmpty(parts: seq<string>)
    requires forall i :: 0 <= i < |parts| ==> IsSegment(parts[i])
    ensures Filter([""] + parts, NonEmpty) == parts
  {
    assert ([""] + parts)[1..] == parts;
    FilterMembers(parts, NonEmpty);
  }

  /**
   * The items: Home first and then one per segment; the i-th item links to the path of the
   * first i segments, and every item after Home shows its segment capitalised.
   */
  lemma ItemsShape(pathname: string, i: nat)
    requires i < |Items(pathname)|
    ensures |Items(pathname)| == |Segments(pathname)| + 1
    ensures Items(pathname)[0] == Crumb("Home", "/")
    ensures Segments(Items(pathname)[i].href) == Segments(pathname)[..i]
    ensures i > 0 ==> Items(pathname)[i].caption == Capitalize(Segments(pathname)[i - 1])
  {
    var segments := Segments(pathname);
    assert Items(pathname)[i].href == Href(segments, i);
    assert forall j :: 0 <= j < i ==> segments[..i][j] == segments[j];
    SegmentsOfHref(segments[..i]);
  }

  /** Each crumb's link extends the previous one by one segment. */
  lemma TrailExtends(segments: seq<string>, i: nat)
    requires i + 1 < |segments|
    ensures Trail(segments)[i + 1].href == Trail(segments)[i].href + "/" + segments[i + 1]
  {
    assert segments[..i + 2] == segments[..i + 1] + [segments[i + 1]];
    JoinSnoc(segments[..i + 1], segments[i + 1], "/");
  }

  /** One `ListItem` of the JSON-LD `BreadcrumbList`. */
  datatype ListItem = ListItem(position: nat, id: string, name: string)

  /** `items.map((item, index) => …)` of the JSON-LD. */
  function ListElements(baseUrl: string, items: seq<Crumb>): (r: seq<ListItem>)
    ensures |r| == |items|
    ensures forall i :: 0 <= i < |r| ==> r[i].position == i + 1
    ensures forall i :: 0 <= i < |r| ==> r[i].id == baseUrl + items[i].href && r[i].name == items[i].caption
  {
    seq(|items|, i requires 0 <= i < |items| => ListItem(i + 1, baseUrl + items[i].href, items[i].caption))
  }

  /** The positions run 1, 2, …, n with no gap, and the Home entry points at the site root. */
  lemma ListPositions(baseUrl: string, pathname: string)
    ensures var r := ListElements(baseUrl, Items(pathname));
            && r[0] == ListItem(1, baseUrl + "/", "Home")
            && r[|r| - 1].position == |r|
            && forall i, j :: 0 <= i < j < |r| ==> r[i].position < r[j].position
  {
  }

  /** How one item is drawn: a link (Home shows its icon) or, for the last, plain text. */
  datatype NavEntry = LinkTo(href: string, caption: string, homeIcon: bool) | PlainText(caption: string)

  /** The `<nav>` entries. */
  function Nav(items: seq<Crumb>): (r: seq<NavEntry>)
    ensures |r| == |items|
  {
    seq(|items|, i requires 0 <= i < |items| =>
      if i == |items| - 1 then PlainText(items[i].caption) else LinkTo(items[i].href, items[i].caption, i == 0))
  }

  /** Only the last item is plain text; every earlier item links to its crumb's path. */
  lemma NavShape(pathname: string)
    ensures var items := Items(pathname);
            var r := Nav(items);
            && r[|r| - 1] == PlainText(items[|items| - 1].caption)
            && (forall i :: 0 <= i < |r| ==> (r[i].PlainText? <==> i == |r| - 1))
            && (forall i :: 0 <= i < |r| - 1 ==> r[i].href == items[i].href && (r[i].homeIcon <==> i == 0))
  {
  }
}
