/** The facility catalog: the kinds a player can place, and the per-kind record
    (capacity, level, production rules) that upgrades change in place. */
module Catalog {
  import opened Wrappers

  /** The three facility kinds the source names (python.py:42-46). */
  datatype Kind = Warehouse | Factory | Depot

  /** The kinds in the catalog's iteration order (the dictionary's insertion order). */
  const AllKinds: seq<Kind> := [Warehouse, Factory, Depot]

  /** Capacity added by one upgrade (python.py:129). */
  const CapacityStep: int := 10

  /** One production rule: a resource name and the amount per level. */
  type Rule = (string, int)

  /** A catalog entry. `production` is None for a kind without a "production" key;
      the display colour is left out. */
  datatype FacilityKind = FacilityKind(capacity: int, level: int, production: Option<seq<Rule>>)

  type Table = map<Kind, FacilityKind>

  /** The catalog as shipped (python.py:42-46). */
  function ShippedTable(): (t: Table)
    ensures t.Keys == {Warehouse, Factory, Depot}
    ensures forall k :: k in t ==> t[k].level == 1
    ensures HasShippedRules(t)
  {
    map[Warehouse := FacilityKind(50, 1, None),
        Factory   := FacilityKind(30, 1, Some([("wood", 1)])),
        Depot     := FacilityKind(20, 1, None)]
  }

  /** The production rules are those of the shipped catalog: only the factory
      produces, one wood per level. No operation changes rules, so every
      reachable catalog satisfies this. */
  ghost predicate HasShippedRules(t: Table)
  {
    t.Keys == {Warehouse, Factory, Depot} &&
    t[Warehouse].production == None &&
    t[Factory].production == Some([("wood", 1)]) &&
    t[Depot].production == None
  }

  /** A catalog with the shipped rules has an entry for every kind. The key set
      in HasShippedRules does not give this by itself: it takes a case split
      over the kinds. */
  lemma ShippedRulesCoverKinds(t: Table)
    requires HasShippedRules(t)
    ensures forall k: Kind :: k in t
  {
    forall k: Kind
      ensures k in t
    {
      match k
      case Warehouse =>
      case Factory =>
      case Depot =>
    }
  }

  /** Every entry is well formed: level at least 1, capacity non-negative,
      production amounts non-negative. */
  ghost predicate WellFormed(t: Table)
  {
    (forall k :: k in t ==> t[k].level >= 1 && t[k].capacity >= 0) &&
    (forall k :: k in t && t[k].production.Some? ==>
       forall i :: 0 <= i < |t[k].production.value| ==> t[k].production.value[i].1 >= 0)
  }

  /** One upgrade of a catalog entry (python.py:128-129). */
  function Upgraded(f: FacilityKind): FacilityKind
  {
    f.(level := f.level + 1, capacity := f.capacity + CapacityStep)
  }

  /** `n` successive upgrades of the same entry. */
  function UpgradedTimes(f: FacilityKind, n: nat): FacilityKind
    decreases n
  {
    if n == 0 then f else Upgraded(UpgradedTimes(f, n - 1))
  }

  /** Each upgrade adds exactly 1 to the level and exactly CapacityStep to the
      capacity, and leaves the production rules alone; so after `n` upgrades
      level and capacity have grown by `n` and `n * CapacityStep`. */
  lemma {:induction false} UpgradedTimesAdds(f: FacilityKind, n: nat)
    ensures UpgradedTimes(f, n).level == f.level + n
    ensures UpgradedTimes(f, n).capacity == f.capacity + n * CapacityStep
    ensures UpgradedTimes(f, n).production == f.production
  {
    if n > 0 {
      UpgradedTimesAdds(f, n - 1);
    }
  }

  /** Upgrades never lower level or capacity: m <= n upgrades give no more than n. */
  lemma UpgradesMonotone(f: FacilityKind, m: nat, n: nat)
    requires m <= n
    ensures UpgradedTimes(f, m).level <= UpgradedTimes(f, n).level
    ensures UpgradedTimes(f, m).capacity <= UpgradedTimes(f, n).capacity
  {
    UpgradedTimesAdds(f, m);
    UpgradedTimesAdds(f, n);
  }

  /** Upgrading one kind's entry keeps the catalog well formed and keeps its rules. */
  lemma UpgradeKeepsTable(t: Table, k: Kind)
    requires k in t
    ensures WellFormed(t) ==> WellFormed(t[k := Upgraded(t[k])])
    ensures HasShippedRules(t) ==> HasShippedRules(t[k := Upgraded(t[k])])
  {
  }
}
