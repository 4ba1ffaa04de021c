/**
 * `components/mdx.tsx`: the server-side MDX components: heading slugs, the heading
 * element with its anchor, and the link component that picks internal, in-page or
 * external rendering from the `href`.
 */
module MdxComponents {
  import opened Wrappers
  import opened Strings
  import opened Seqs
  import opened Json

  // ---------------------------------------------------------------------------------------
  // slugify, one `replace` at a time

  predicate NoSpace(s: string) {
    forall i :: 0 <= i < |s| ==> !IsSpace(s[i])
  }

  predicate NoUpper(s: string) {
    forall i :: 0 <= i < |s| ==> !IsUpperAscii(s[i])
  }

  /** The characters `/[^\w\-]+/g` does not remove. */
  predicate KeptByCleanup(c: char) {
    IsWordChar(c) || c == '-'
  }

  predicate AllKept(s: string) {
    forall i :: 0 <= i < |s| ==> KeptByCleanup(s[i])
  }

  /** The characters a slug is made of: lowercase ASCII letters, digits, `_` and `-`. */
  predicate IsSlugChar(c: char) {
    IsLowerAscii(c) || ('0' <= c <= '9') || c == '_' || c == '-'
  }

  predicate AllSlugChars(s: string) {
    forall i :: 0 <= i < |s| ==> IsSlugChar(s[i])
  }

  predicate NoDoubleHyphen(s: string) {
    forall i :: 0 <= i < |s| - 1 ==> !(s[i] == '-' && s[i + 1] == '-')
  }

  /** Slug characters are neither whitespace, uppercase nor `&`, and the cleanup keeps them. */
  lemma SlugCharsPlain(s: string)
    requires AllSlugChars(s)
    ensures NoSpace(s) && NoUpper(s) && AllKept(s) && '&' !in s
  {
    forall i | 0 <= i < |s| ensures !IsSpace(s[i]) && !IsUpperAscii(s[i]) && KeptByCleanup(s[i]) && s[i] != '&' {
      assert IsSlugChar(s[i]);
    }
  }

  /** `.replace(/\s+/g, "-")`: every maximal run of whitespace becomes one hyphen. */
  function HyphenateWhitespace(s: string): string
    decreases |s|
  {
    if |s| == 0 then ""
    else if IsSpace(s[0]) then "-" + HyphenateWhitespace(TrimStart(s))
    else [s[0]] + HyphenateWhitespace(s[1..])
  }

  lemma {:induction false} HyphenateWhitespaceShape(s: string)
    ensures NoSpace(HyphenateWhitespace(s))
    ensures NoUpper(s) ==> NoUpper(HyphenateWhitespace(s))
    ensures NoSpace(s) ==> HyphenateWhitespace(s) == s
    decreases |s|
  {
    if |s| > 0 {
      if IsSpace(s[0]) {
        TrimStartNoUpper(s);
        HyphenateWhitespaceShape(TrimStart(s));
      } else {
        assert s == [s[0]] + s[1..];
        HyphenateWhitespaceShape(s[1..]);
      }
    }
  }

  lemma {:induction false} TrimStartNoUpper(s: string)
    ensures NoUpper(s) ==> NoUpper(TrimStart(s))
  {
    if |s| > 0 && IsSpace(s[0]) {
      TrimStartNoUpper(s[1..]);
    }
  }

  /** `.replace(/&/g, "-and-")`. */
  function SpellOutAmpersands(s: string): string {
    if |s| == 0 then ""
    else (if s[0] == '&' then "-and-" else [s[0]]) + SpellOutAmpersands(s[1..])
  }

  lemma {:induction false} SpellOutAmpersandsShape(s: string)
    ensures '&' !in SpellOutAmpersands(s)
    ensures NoUpper(s) ==> NoUpper(SpellOutAmpersands(s))
    ensures '&' !in s ==> SpellOutAmpersands(s) == s
  {
    if |s| > 0 {
      assert s == [s[0]] + s[1..];
      SpellOutAmpersandsShape(s[1..]);
    }
  }

  /** `.replace(/[^\w\-]+/g, "")`: only word characters and hyphens remain. */
  function RemoveNonWord(s: string): string {
    if |s| == 0 then ""
    else (if KeptByCleanup(s[0]) then [s[0]] else "") + RemoveNonWord(s[1..])
  }

  lemma {:induction false} RemoveNonWordShape(s: string)
    ensures AllKept(RemoveNonWord(s))
    ensures NoUpper(s) ==> NoUpper(RemoveNonWord(s))
    ensures AllKept(s) ==> RemoveNonWord(s) == s
  {
    if |s| > 0 {
      assert s == [s[0]] + s[1..];
      RemoveNonWordShape(s[1..]);
    }
  }

  /** The string after its leading hyphens. */
  function DropLeadingHyphens(s: string): (r: string)
    ensures |r| <= |s|
    ensures r == [] || r[0] != '-'
    ensures |s| > 0 && s[0] == '-' ==> |r| < |s|
  {
    if |s| > 0 && s[0] == '-' then DropLeadingHyphens(s[1..]) else s
  }

  lemma {:induction false} DropLeadingHyphensSlugChars(s: string)
    ensures AllSlugChars(s) ==> AllSlugChars(DropLeadingHyphens(s))
  {
    if |s| > 0 && s[0] == '-' {
      DropLeadingHyphensSlugChars(s[1..]);
    }
  }

  /** `.replace(/\-\-+/g, "-")`: every run of two or more hyphens becomes one. */
  function CollapseHyphens(s: string): string
    decreases |s|
  {
    if |s| == 0 then ""
    else if s[0] == '-' then "-" + CollapseHyphens(DropLeadingHyphens(s))
    else [s[0]] + CollapseHyphens(s[1..])
  }

  lemma {:induction false} CollapseHyphensShape(s: string)
    ensures |s| > 0 ==> |CollapseHyphens(s)| > 0 && CollapseHyphens(s)[0] == s[0]
    ensures NoDoubleHyphen(CollapseHyphens(s))
    ensures AllSlugChars(s) ==> AllSlugChars(CollapseHyphens(s))
    ensures NoDoubleHyphen(s) ==> CollapseHyphens(s) == s
    decreases |s|
  {
    if |s| > 0 {
      if s[0] == '-' {
        var t := DropLeadingHyphens(s);
        DropLeadingHyphensSlugChars(s);
        CollapseHyphensShape(t);
        if NoDoubleHyphen(s) && |s| > 1 {
          assert DropLeadingHyphens(s[1..]) == s[1..];
        }
      } else {
        assert s == [s[0]] + s[1..];
        CollapseHyphensShape(s[1..]);
      }
    }
  }

  /** `slugify`: lowercase, trim, hyphenate whitespace, spell out `&`, drop other symbols, collapse hyphens. */
  function Slugify(s: string): string {
    CollapseHyphens(RemoveNonWord(SpellOutAmpersands(HyphenateWhitespace(Trim(ToLower(s))))))
  }

  /** A slug is made only of `[a-z0-9_-]`, so it is lowercase and has no whitespace, and it has no `--`. */
  lemma SlugifyShape(s: string)
    ensures AllSlugChars(Slugify(s))
    ensures NoSpace(Slugify(s)) && NoUpper(Slugify(s))
    ensures NoDoubleHyphen(Slugify(s))
  {
    var t0 := ToLower(s);
    var t1 := Trim(t0);
    TrimShape(t0);
    assert NoUpper(t1) by {
      forall i | 0 <= i < |t1| ensures !IsUpperAscii(t1[i]) {
        assert t1[i] in t0;
      }
    }
    var t2 := HyphenateWhitespace(t1);
    HyphenateWhitespaceShape(t1);
    var t3 := SpellOutAmpersands(t2);
    SpellOutAmpersandsShape(t2);
    var t4 := RemoveNonWord(t3);
    RemoveNonWordShape(t3);
    assert AllSlugChars(t4);
    CollapseHyphensShape(t4);
    SlugCharsPlain(Slugify(s));
  }

  /** Slugifying a slug changes nothing. */
  lemma SlugifyIdempotent(s: string)
    ensures Slugify(Slugify(s)) == Slugify(s)
  {
    SlugifyShape(s);
    SlugifyOfSlug(Slugify(s));
  }

  /** A string of slug characters without `--` is its own slug. */
  lemma SlugifyOfSlug(r: string)
    requires AllSlugChars(r) && NoDoubleHyphen(r)
    ensures Slugify(r) == r
  {
    SlugCharsPlain(r);
    var t0 := ToLower(r);
    assert t0 == r;
    var t1 := Trim(t0);
    TrimNoSpace(r);
    assert t1 == r;
    var t2 := HyphenateWhitespace(t1);
    HyphenateWhitespaceShape(r);
    assert t2 == r;
    var t3 := SpellOutAmpersands(t2);
    SpellOutAmpersandsShape(r);
    assert t3 == r;
    var t4 := RemoveNonWord(t3);
    RemoveNonWordShape(r);
    assert t4 == r;
    CollapseHyphensShape(r);
  }

  /**
   * `&` between two words is spelled out before the cleanup: `x & y` becomes `x-and-y` for
   * any lowercase letters `x` and `y`, as "a & b" becomes "a-and-b".
   */
  lemma SlugifyAmpersand(x: char, y: char)
    requires IsLowerAscii(x) && IsLowerAscii(y)
    ensures Slugify([x] + " & " + [y]) == [x] + "-and-" + [y]
  {
    AmpersandLowerTrim(x, y);
    AmpersandHyphenate(x, y);
    AmpersandSpellOut(x, y);
    AmpersandRemoveNonWord(x, y);
    AmpersandCollapse(x, y);
  }

  lemma AmpersandLowerTrim(x: char, y: char)
    requires IsLowerAscii(x) && IsLowerAscii(y)
    ensures Trim(ToLower([x] + " & " + [y])) == [x] + " & " + [y]
  {
    var s := [x] + " & " + [y];
    assert ToLower(s) == s;
    TrimNoSpaceEnds(s);
  }

  lemma AmpersandHyphenate(x: char, y: char)
    requires IsLowerAscii(x) && IsLowerAscii(y)
    ensures HyphenateWhitespace([x] + " & " + [y]) == [x] + "-&-" + [y]
  {
    var s := [x] + ([' '] + (['&'] + ([' '] + [y])));
    assert [x] + " & " + [y] == s;
    HyphenateKeep(y, "");
    assert [y] + "" == [y];
    HyphenateRun([y]);
    HyphenateKeep('&', [' '] + [y]);
    HyphenateRun(['&'] + ([' '] + [y]));
    HyphenateKeep(x, [' '] + (['&'] + ([' '] + [y])));
    assert [x] + (['-'] + (['&'] + (['-'] + [y]))) == [x] + "-&-" + [y];
  }

  lemma AmpersandSpellOut(x: char, y: char)
    requires IsLowerAscii(x) && IsLowerAscii(y)
    ensures SpellOutAmpersands([x] + "-&-" + [y]) == [x] + "--and--" + [y]
  {
    var h := [x] + (['-'] + (['&'] + (['-'] + [y])));
    assert [x] + "-&-" + [y] == h;
    SpellOutKeep(y, "");
    assert [y] + "" == [y];
    SpellOutKeep('-', [y]);
    SpellOutAmp(['-'] + [y]);
    SpellOutKeep('-', ['&'] + (['-'] + [y]));
    SpellOutKeep(x, ['-'] + (['&'] + (['-'] + [y])));
    assert [x] + (['-'] + ("-and-" + (['-'] + [y]))) == [x] + "--and--" + [y];
  }

  lemma AmpersandRemoveNonWord(x: char, y: char)
    requires IsLowerAscii(x) && IsLowerAscii(y)
    ensures RemoveNonWord([x] + "--and--" + [y]) == [x] + "--and--" + [y]
  {
    var a := [x] + "--and--" + [y];
    assert AllKept(a) by {
      forall i | 0 <= i < |a| ensures KeptByCleanup(a[i]) {
        if 0 < i < |a| - 1 {
          assert a[i] == "--and--"[i - 1];
        }
      }
    }
    RemoveNonWordShape(a);
  }

  lemma AmpersandCollapse(x: char, y: char)
    requires IsLowerAscii(x) && IsLowerAscii(y)
    ensures CollapseHyphens([x] + "--and--" + [y]) == [x] + "-and-" + [y]
  {
    var c1 := ['-', '-'] + [y];
    var c2 := ['d'] + c1;
    var c3 := ['n'] + c2;
    var c4 := ['a'] + c3;
    var c5 := ['-', '-'] + c4;
    assert [x] + "--and--" + [y] == [x] + c5;
    CollapseKeep(y, "");
    assert [y] + "" == [y];
    CollapseRun([y]);
    CollapseKeep('d', c1);
    CollapseKeep('n', c2);
    CollapseKeep('a', c3);
    CollapseRun(c4);
    CollapseKeep(x, c5);
    assert [x] + (['-'] + (['a'] + (['n'] + (['d'] + (['-'] + [y]))))) == [x] + "-and-" + [y];
  }

  /** A character other than whitespace is copied by the hyphenation. */
  lemma HyphenateKeep(c: char, t: string)
    requires !IsSpace(c)
    ensures HyphenateWhitespace([c] + t) == [c] + HyphenateWhitespace(t)
  {
    assert ([c] + t)[1..] == t;
  }

  /** One space before another character becomes a hyphen. */
  lemma HyphenateRun(t: string)
    requires |t| > 0 && !IsSpace(t[0])
    ensures HyphenateWhitespace([' '] + t) == ['-'] + HyphenateWhitespace(t)
  {
    assert ([' '] + t)[1..] == t;
    assert TrimStart(t) == t;
  }

  /** A character other than `&` is copied by the spelling out. */
  lemma SpellOutKeep(c: char, t: string)
    requires c != '&'
    ensures SpellOutAmpersands([c] + t) == [c] + SpellOutAmpersands(t)
  {
    assert ([c] + t)[1..] == t;
  }

  /** `&` becomes `-and-`. */
  lemma SpellOutAmp(t: string)
    ensures SpellOutAmpersands(['&'] + t) == "-and-" + SpellOutAmpersands(t)
  {
    assert (['&'] + t)[1..] == t;
  }

  /** A character other than a hyphen is copied by the collapsing. */
  lemma CollapseKeep(c: char, t: string)
    requires c != '-'
    ensures CollapseHyphens([c] + t) == [c] + CollapseHyphens(t)
  {
    assert ([c] + t)[1..] == t;
  }

  /** A run of two hyphens before another character becomes one. */
  lemma CollapseRun(t: string)
    requires |t| > 0 && t[0] != '-'
    ensures CollapseHyphens(['-', '-'] + t) == ['-'] + CollapseHyphens(t)
  {
    var s := ['-', '-'] + t;
    assert s[0] == '-' && s[1..] == ['-'] + t;
    assert (['-'] + t)[0] == '-' && (['-'] + t)[1..] == t;
    assert DropLeadingHyphens(t) == t;
    assert DropLeadingHyphens(s) == t;
  }

  lemma TrimNoSpaceEnds(s: string)
    requires |s| > 0 && !IsSpace(s[0]) && !IsSpace(s[|s| - 1])
    ensures Trim(s) == s
  {
  }

  // ---------------------------------------------------------------------------------------
  // createHeading

  /** The heading element: its tag, its `id`, and the anchor inside it. */
  datatype Heading = Heading(tag: string, id: string, anchorHref: string, anchorKey: string, anchorClass: string)

  /**
   * `createHeading(level)` rendering `children`; `text` is `children?.toString()`, `None`
   * when the children are `null` or `undefined`.
   */
  function CreateHeading(level: nat, text: Option<string>): (h: Heading)
    ensures h.id == Slugify(if text.Some? then text.value else "")
    ensures AllSlugChars(h.id) && NoDoubleHyphen(h.id)
    ensures h.anchorHref == "#" + h.id
    ensures h.anchorKey == "link-" + h.id
    ensures h.tag == "h" + NatToString(level)
  {
    var slug := Slugify(if text.Some? then text.value else "");
    SlugifyShape(if text.Some? then text.value else "");
    Heading("h" + NatToString(level), slug, "#" + slug, "link-" + slug, "anchor")
  }

  // ---------------------------------------------------------------------------------------
  // CustomLink

  /** What `CustomLink` renders: a Next.js `Link` to `href`, or an `<a>` with the given attributes. */
  datatype Rendered = NextLink(href: string, attrs: seq<Field>) | Anchor(attrs: seq<Field>)

  /** `href?.startsWith(prefix)` on the `href` attribute. */
  predicate HrefStartsWith(props: seq<Field>, prefix: string) {
    Get(props, "href").JStr? && StartsWith(Get(props, "href").s, prefix)
  }

  /** The attributes an external link carries before the props are spread over them. */
  const ExternalAttrs := [Field("target", JStr("_blank")), Field("rel", JStr("noopener noreferrer"))]

  /**
   * `CustomLink(props)`: an `href` starting with `/` is an internal `Link`, one starting with
   * `#` a plain anchor, and anything else, a missing `href` included, opens in a new tab.
   */
  function CustomLink(props: seq<Field>): (r: Rendered)
    ensures HrefStartsWith(props, "/") ==> r == NextLink(Get(props, "href").s, props)
    ensures !HrefStartsWith(props, "/") && HrefStartsWith(props, "#") ==> r == Anchor(props)
    ensures !HrefStartsWith(props, "/") && !HrefStartsWith(props, "#") ==> r == Anchor(Spread(ExternalAttrs, props))
  {
    if HrefStartsWith(props, "/") then NextLink(Get(props, "href").s, props)
    else if HrefStartsWith(props, "#") then Anchor(props)
    else Anchor(Spread(ExternalAttrs, props))
  }

  /**
   * An external link opens in a new tab with `rel="noopener noreferrer"` unless the props set
   * `target` or `rel` themselves; every prop is passed through.
   */
  lemma ExternalLinkAttrs(props: seq<Field>)
    requires UniqueKeys(props)
    requires !HrefStartsWith(props, "/") && !HrefStartsWith(props, "#")
    ensures Get(CustomLink(props).attrs, "target") == if HasKey(props, "target") then Get(props, "target") else JStr("_blank")
    ensures Get(CustomLink(props).attrs, "rel")
         == if HasKey(props, "rel") then Get(props, "rel") else JStr("noopener noreferrer")
    ensures forall k :: HasKey(props, k) ==> Get(CustomLink(props).attrs, k) == Get(props, k)
  {
    forall k ensures Get(Spread(ExternalAttrs, props), k)
                  == if HasKey(props, k) then Get(props, k) else Get(ExternalAttrs, k) {
      SpreadGet(ExternalAttrs, props, k);
    }
    GetFirst(ExternalAttrs, 1);
  }
}
