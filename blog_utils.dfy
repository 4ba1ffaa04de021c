/**
 * `components/blog-utils.tsx`: the reading tiers of a post. `TIER_ORDER` ranks them for
 * sorting and `getTierBadge` labels them; both recognise the same three tiers.
 */
module BlogUtils {
  import opened Wrappers
  import opened Json

  /** `TIER_ORDER`: higher numbers sort first. */
  const TierOrder := [Field("reference", JNum(3)), Field("revisit", JNum(2)), Field("read", JNum(1))]

  /** The three names, as keys of `TIER_ORDER` and as cases of `getTierBadge`. */
  predicate IsTierName(k: string) {
    k == "reference" || k == "revisit" || k == "read"
  }

  /** The tier values `getTierBadge`'s strict `switch` recognises: the three names as strings. */
  predicate IsTier(tier: Json) {
    tier.JStr? && IsTierName(tier.s)
  }

  /**
   * `getTierPriority(tier)`: `TIER_ORDER[tier] || 0`. The property lookup converts the tier to
   * its string key first, so a missing tier looks up `"undefined"` and a one-element array
   * such as `[reference]` looks up `"reference"`. A key that is not one of the three names
   * has no entry and gets 0.
   */
  function TierPriority(tier: Json): (p: int)
    ensures 0 <= p <= 3
    ensures tier == JStr("reference") ==> p == 3
    ensures tier == JStr("revisit") ==> p == 2
    ensures tier == JStr("read") ==> p == 1
    ensures p == 0 <==> !IsTierName(ToJsString(tier))
    ensures tier.JStr? ==> (p == 0 <==> !IsTier(tier))
  {
    var entry := Get(TierOrder, ToJsString(tier));
    TierOrderLookup(ToJsString(tier));
    if Truthy(entry) && entry.JNum? then entry.n else 0
  }

  /** A lookup in `TIER_ORDER`: undefined for every name but the three keys. */
  lemma TierOrderLookup(k: string)
    ensures Get(TierOrder, k) == if k == "reference" then JNum(3) else if k == "revisit" then JNum(2)
                                 else if k == "read" then JNum(1) else JUndefined
  {
    var t1 := TierOrder[1..];
    var t2 := t1[1..];
    assert t1 == [Field("revisit", JNum(2)), Field("read", JNum(1))];
    assert t2 == [Field("read", JNum(1))];
    assert t2[1..] == [];
    assert Get(t2, k) == if k == "read" then JNum(1) else JUndefined;
    assert Get(t1, k) == if k == "revisit" then JNum(2) else Get(t2, k);
  }

  /** The tiers rank reference above revisit above read above any value whose key is no tier name. */
  lemma TierRanking(other: Json)
    requires !IsTierName(ToJsString(other))
    ensures TierPriority(JStr("reference")) > TierPriority(JStr("revisit")) > TierPriority(JStr("read"))
            > TierPriority(other)
  {
  }

  /** The badge `getTierBadge` renders: its caption and its visual variant. */
  datatype Badge = Badge(caption: string, variant: string)

  /** `getTierBadge(tier)`: a `switch` on the tier, `null` for anything unrecognised. */
  function TierBadge(tier: Json): (b: Option<Badge>)
    ensures tier == JStr("reference") ==> b == Some(Badge("Reference", "default"))
    ensures tier == JStr("revisit") ==> b == Some(Badge("Revisit", "default"))
    ensures tier == JStr("read") ==> b == Some(Badge("Read", "secondary"))
    ensures b.None? <==> !IsTier(tier)
  {
    if tier == JStr("reference") then Some(Badge("Reference", "default"))
    else if tier == JStr("revisit") then Some(Badge("Revisit", "default"))
    else if tier == JStr("read") then Some(Badge("Read", "secondary"))
    else None
  }

  /**
   * A post shows a badge exactly when its tier is a string that ranks above the unrecognised
   * ones. For a string or missing tier that is the same as a positive priority.
   */
  lemma BadgeIffPriority(tier: Json)
    ensures TierBadge(tier).Some? <==> tier.JStr? && TierPriority(tier) > 0
    ensures (tier.JStr? || tier == JUndefined) ==> (TierBadge(tier).Some? <==> TierPriority(tier) > 0)
  {
  }

  /**
   * An array tier breaks the agreement: `[reference]` sorts with priority 3, because its key is
   * `"reference"`, while the strict `switch` gives it no badge.
   */
  lemma ArrayTierRanksWithoutBadge()
    ensures TierPriority(JArr([JStr("reference")])) == 3
    ensures TierBadge(JArr([JStr("reference")])).None?
  {
    assert ToJsString(JArr([JStr("reference")])) == "reference";
  }
}
