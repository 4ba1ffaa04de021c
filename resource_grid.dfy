/**
 * `components/resources/resource-grid.tsx`: a category's subcategories, shown from the one
 * with the fewest links to the one with the most. The component sorts a copy, so the
 * subcategories it was given are left as they were; values here are immutable, so that
 * holds of the model by construction.
 */
module ResourceGrid {
  import opened Seqs
  import opened Resources

  /** `a.links.length`. */
  function LinkCount(sub: Subcategory): int {
    |sub.links|
  }

  /** `(a, b) => a.links.length - b.links.length`. */
  function ByLinkCount(): (Subcategory, Subcategory) -> bool {
    ByKeyAscending(LinkCount)
  }

  /** `[...subcategories].sort(byLinkCount)`: a stable sort of a copy. */
  function SortedSubcategories(subs: seq<Subcategory>): seq<Subcategory> {
    SortBy(subs, ByLinkCount())
  }

  /** The subcategories are shown in ascending order of their number of links. */
  lemma SortedAscending(subs: seq<Subcategory>)
    ensures var r := SortedSubcategories(subs);
            forall i, j :: 0 <= i < j < |r| ==> |r[i].links| <= |r[j].links|
  {
    KeyOrdersAreStrictWeak(LinkCount);
    SortBySorted(subs, ByLinkCount());
  }

  /** Every subcategory is shown, once for each time it was given, and no other. */
  lemma SortedPermutation(subs: seq<Subcategory>)
    ensures multiset(SortedSubcategories(subs)) == multiset(subs)
  {
    SortByPermutation(subs, ByLinkCount());
  }

  /** The subcategories with `n` links. */
  function WithCount(n: nat): Subcategory -> bool {
    (sub: Subcategory) => |sub.links| == n
  }

  /** Subcategories with equal numbers of links keep the order they were given in. */
  lemma SortedStable(subs: seq<Subcategory>, n: nat)
    ensures Filter(SortedSubcategories(subs), WithCount(n)) == Filter(subs, WithCount(n))
  {
    var lt := ByLinkCount();
    KeyOrdersAreStrictWeak(LinkCount);
    var e := Subcategory("", "", seq(n, _ => Link("", "", "")));
    SortByStable(subs, lt, e);
    FilterExt(SortedSubcategories(subs), x => Tied(lt, x, e), WithCount(n));
    FilterExt(subs, x => Tied(lt, x, e), WithCount(n));
  }
}
