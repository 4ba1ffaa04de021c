/**
 * `app/page.tsx`: the home page's link cards. Each resource category becomes one card with
 * its title and description and, from each of its subcategories in turn, at most the first
 * three links.
 */
module HomePage {
  import opened Seqs
  import opened Resources

  /** One card of `linkCategories`. */
  datatype LinkCategory = LinkCategory(title: string, description: string, links: seq<Link>)

  /** At most this many links of a subcategory are shown. */
  const LinksPerSubcategory := 3

  /** `sub.links.slice(0, 3)`. */
  function FirstLinks(sub: Subcategory): (r: seq<Link>)
    ensures |r| == if |sub.links| < LinksPerSubcategory then |sub.links| else LinksPerSubcategory
    ensures r == sub.links[..|r|]
  {
    Take(sub.links, LinksPerSubcategory)
  }

  /** `sub.links`. */
  function AllLinks(sub: Subcategory): seq<Link> {
    sub.links
  }

  /** `cat.subcategories.flatMap(sub => sub.links.slice(0, 3))`. */
  function CategoryLinks(cat: Category): seq<Link> {
    FlatMap(cat.subcategories, FirstLinks)
  }

  /** The card of one category. */
  function CardOf(cat: Category): LinkCategory {
    LinkCategory(cat.title, cat.description, CategoryLinks(cat))
  }

  /** `resourceData.categories.map(…)`: one card per category, in order. */
  function LinkCategories(cats: seq<Category>): (r: seq<LinkCategory>)
    ensures |r| == |cats|
    ensures forall i :: 0 <= i < |cats| ==>
              r[i].title == cats[i].title && r[i].description == cats[i].description
              && r[i].links == FlatMap(cats[i].subcategories, FirstLinks)
  {
    Map(cats, CardOf)
  }

  /** How many links the subcategories show: `min(3, n)` each. */
  function ShownCount(subs: seq<Subcategory>): nat {
    if |subs| == 0 then 0
    else (if |subs[0].links| < LinksPerSubcategory then |subs[0].links| else LinksPerSubcategory) + ShownCount(subs[1..])
  }

  /** A card shows exactly `min(3, n)` links for each subcategory of `n` links. */
  lemma {:induction false} CategoryLinksCount(subs: seq<Subcategory>)
    ensures |FlatMap(subs, FirstLinks)| == ShownCount(subs)
    ensures ShownCount(subs) <= LinksPerSubcategory * |subs|
  {
    if |subs| > 0 {
      CategoryLinksCount(subs[1..]);
    }
  }

  /** Every link on a card is among the first three links of one of the category's subcategories. */
  lemma CategoryLinksFrom(cat: Category, l: Link)
    ensures l in CategoryLinks(cat) <==>
              exists i :: 0 <= i < |cat.subcategories| && l in FirstLinks(cat.subcategories[i])
  {
    FlatMapMembers(cat.subcategories, FirstLinks, l);
  }

  /** When no subcategory has more than three links, the card shows every link of the category. */
  lemma {:induction false} CategoryLinksAll(subs: seq<Subcategory>)
    requires forall i :: 0 <= i < |subs| ==> |subs[i].links| <= LinksPerSubcategory
    ensures FlatMap(subs, FirstLinks) == FlatMap(subs, AllLinks)
  {
    if |subs| > 0 {
      CategoryLinksAll(subs[1..]);
    }
  }
}
