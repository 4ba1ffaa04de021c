/**
 * The bookmark tree of `data/resources.json` as the resource pages read it: categories of
 * subcategories of links (`components/resources/resource-grid.tsx`, lines 3-19, and the
 * schema of `scripts/validateResources.ts`).
 */
module Resources {
  /** A `Resource`: one bookmark. */
  datatype Link = Link(name: string, description: string, url: string)

  /** A `Subcategory`: a titled group of links. */
  datatype Subcategory = Subcategory(title: string, description: string, links: seq<Link>)

  /** A category of the tree. */
  datatype Category = Category(slug: string, title: string, description: string, subcategories: seq<Subcategory>)
}
