/**
 * `components/mdx-client.tsx`: the client-side copies of the MDX heading and link
 * components. Its `slugify` is its own chain of the same `replace` calls as the server's, and
 * its link component adds `suppressHydrationWarning` to external links.
 */
module MdxClient {
  import opened Wrappers
  import opened Strings
  import opened Json
  import MdxComponents

  /**
   * The client's `slugify`: `toLowerCase`, `trim`, then the four `replace` calls in the
   * client file's order, each modelled by the step function of the server module that
   * stands for the same regular expression.
   */
  function Slugify(str: string): string {
    var lowered := Trim(ToLower(str));
    var hyphenated := MdxComponents.HyphenateWhitespace(lowered);
    var spelled := MdxComponents.SpellOutAmpersands(hyphenated);
    var cleaned := MdxComponents.RemoveNonWord(spelled);
    MdxComponents.CollapseHyphens(cleaned)
  }

  /** Both files slugify every string the same way. */
  lemma SlugifyAgrees(str: string)
    ensures Slugify(str) == MdxComponents.Slugify(str)
  {
  }

  /** `createHeading(level)` rendering `children`, with `text` as `children?.toString()`. */
  function CreateHeading(level: nat, text: Option<string>): (h: MdxComponents.Heading)
    ensures h.id == Slugify(if text.Some? then text.value else "")
    ensures MdxComponents.AllSlugChars(h.id) && MdxComponents.NoDoubleHyphen(h.id)
    ensures h.anchorHref == "#" + h.id && h.anchorKey == "link-" + h.id
    ensures h.tag == "h" + NatToString(level)
  {
    var slug := Slugify(if text.Some? then text.value else "");
    SlugifyAgrees(if text.Some? then text.value else "");
    MdxComponents.SlugifyShape(if text.Some? then text.value else "");
    MdxComponents.Heading("h" + NatToString(level), slug, "#" + slug, "link-" + slug, "anchor")
  }

  /** The client and the server render the same heading. */
  lemma HeadingsAgree(level: nat, text: Option<string>)
    ensures CreateHeading(level, text) == MdxComponents.CreateHeading(level, text)
  {
    SlugifyAgrees(if text.Some? then text.value else "");
  }

  /** The attributes an external link carries before the props are spread over them. */
  const ExternalAttrs := MdxComponents.ExternalAttrs + [Field("suppressHydrationWarning", JBool(true))]

  /** `CustomLink(props)`, the client copy: the same three-way choice on the `href`. */
  function CustomLink(props: seq<Field>): (r: MdxComponents.Rendered)
    ensures MdxComponents.HrefStartsWith(props, "/") ==> r == MdxComponents.NextLink(Get(props, "href").s, props)
    ensures !MdxComponents.HrefStartsWith(props, "/") && MdxComponents.HrefStartsWith(props, "#")
            ==> r == MdxComponents.Anchor(props)
    ensures !MdxComponents.HrefStartsWith(props, "/") && !MdxComponents.HrefStartsWith(props, "#")
            ==> r == MdxComponents.Anchor(Spread(ExternalAttrs, props))
  {
    if MdxComponents.HrefStartsWith(props, "/") then MdxComponents.NextLink(Get(props, "href").s, props)
    else if MdxComponents.HrefStartsWith(props, "#") then MdxComponents.Anchor(props)
    else MdxComponents.Anchor(Spread(ExternalAttrs, props))
  }

  /**
   * The client link renders what the server link renders, except that an external link
   * also carries `suppressHydrationWarning`, unless the props set it themselves.
   */
  lemma LinksAgree(props: seq<Field>, k: string)
    requires UniqueKeys(props)
    ensures CustomLink(props).NextLink? == MdxComponents.CustomLink(props).NextLink?
    ensures MdxComponents.HrefStartsWith(props, "/") || MdxComponents.HrefStartsWith(props, "#")
            ==> CustomLink(props) == MdxComponents.CustomLink(props)
    ensures k != "suppressHydrationWarning"
            ==> Get(CustomLink(props).attrs, k) == Get(MdxComponents.CustomLink(props).attrs, k)
    ensures !MdxComponents.HrefStartsWith(props, "/") && !MdxComponents.HrefStartsWith(props, "#")
            ==> (Get(CustomLink(props).attrs, "suppressHydrationWarning")
                 == if HasKey(props, "suppressHydrationWarning") then Get(props, "suppressHydrationWarning") else JBool(true))
  {
    if !MdxComponents.HrefStartsWith(props, "/") && !MdxComponents.HrefStartsWith(props, "#") {
      SpreadGet(ExternalAttrs, props, k);
      SpreadGet(MdxComponents.ExternalAttrs, props, k);
      SpreadGet(ExternalAttrs, props, "suppressHydrationWarning");
      GetFirst(ExternalAttrs, 2);
      if k != "suppressHydrationWarning" {
        GetAppendOther(MdxComponents.ExternalAttrs, Field("suppressHydrationWarning", JBool(true)), k);
      }
    }
  }
}
