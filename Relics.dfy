/** The order in which relics are listed. */
module Relics {
  import opened StringUtil

  /** A relic as far as its order goes: the ordinal of its tier and its name. */
  datatype Relic = Relic(tier: nat, name: string)

  /**
   * `compareTo`: by tier, then by name. Two relics compare equal exactly
   * when they agree on both, and a relic of a lower tier always comes first.
   */
  function Compare(a: Relic, b: Relic): (r: int)
    ensures r == 0 <==> a == b
    ensures a.tier < b.tier ==> r < 0
    ensures a.tier == b.tier ==> r == JavaCompare(a.name, b.name)
  {
    RankedCompareZero(a.tier, a.name, b.tier, b.name);
    RankedCompare(a.tier, a.name, b.tier, b.name)
  }

  /** Swapping the relics flips the sign, as `Comparable` requires. */
  lemma CompareAntisymmetric(a: Relic, b: Relic)
    ensures Compare(a, b) == -Compare(b, a)
  {
    RankedCompareAntisymmetric(a.tier, a.name, b.tier, b.name);
  }

  lemma CompareTransitive(a: Relic, b: Relic, c: Relic)
    requires Compare(a, b) <= 0 && Compare(b, c) <= 0
    ensures Compare(a, c) <= 0
  {
    RankedCompareTransitive(a.tier, a.name, b.tier, b.name, c.tier, c.name);
  }
}
