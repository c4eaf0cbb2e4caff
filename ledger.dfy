/** The resource ledger and the production step that credits it
    (python.py:60, 132-138). */
module Ledger {
  import opened Wrappers
  import opened Catalog

  type Resources = map<string, int>

  /** The ledger as shipped (python.py:60). */
  function ShippedResources(): (l: Resources)
    ensures l.Keys == {"wood", "metal", "fuel"}
    ensures forall r :: r in l ==> l[r] == 0
  {
    map["wood" := 0, "metal" := 0, "fuel" := 0]
  }

  /** Every resource a rule names is a key of the ledger (otherwise the source's
      `resources[resource] += ...` would raise). */
  ghost predicate RulesIn(rules: seq<Rule>, l: Resources)
  {
    forall i :: 0 <= i < |rules| ==> rules[i].0 in l
  }

  /** Every rule of every catalog entry names a ledger key. */
  ghost predicate CatalogIn(t: Table, l: Resources)
  {
    forall k :: k in t && t[k].production.Some? ==> RulesIn(t[k].production.value, l)
  }

  /** Applies the rules in order, adding `amount * level` for each (python.py:137-138). */
  function CreditRules(l: Resources, rules: seq<Rule>, level: int): (r: Resources)
    requires RulesIn(rules, l)
    ensures r.Keys == l.Keys
    decreases |rules|
  {
    if rules == [] then l
    else
      var last := rules[|rules| - 1];
      var before := CreditRules(l, rules[..|rules| - 1], level);
      before[last.0 := before[last.0] + last.1 * level]
  }

  /** The total amount the rules give to resource `name` per level. */
  function AmountFor(rules: seq<Rule>, name: string): int
  {
    if rules == [] then 0
    else AmountFor(rules[..|rules| - 1], name)
         + (if rules[|rules| - 1].0 == name then rules[|rules| - 1].1 else 0)
  }

  /** Credits one catalog entry: nothing when it has no rules (python.py:136). */
  function CreditKind(l: Resources, f: FacilityKind): (r: Resources)
    requires f.production.Some? ==> RulesIn(f.production.value, l)
    ensures r.Keys == l.Keys
  {
    match f.production
    case None => l
    case Some(rules) => CreditRules(l, rules, f.level)
  }

  /** The production step: credits every listed kind of the catalog in order
      (python.py:135-138). */
  function Produce(l: Resources, t: Table, kinds: seq<Kind>): (r: Resources)
    requires forall i :: 0 <= i < |kinds| ==> kinds[i] in t
    requires CatalogIn(t, l)
    ensures r.Keys == l.Keys
    decreases |kinds|
  {
    if kinds == [] then l
    else
      var before := Produce(l, t, kinds[..|kinds| - 1]);
      CreditKind(before, t[kinds[|kinds| - 1]])
  }

  /** The yield of one entry for resource `name`: level times the rule amounts. */
  function KindYield(f: FacilityKind, name: string): int
  {
    match f.production
    case None => 0
    case Some(rules) => f.level * AmountFor(rules, name)
  }

  /** The total yield of the listed kinds for resource `name`. */
  function Yield(t: Table, kinds: seq<Kind>, name: string): int
    requires forall i :: 0 <= i < |kinds| ==> kinds[i] in t
  {
    if kinds == [] then 0
    else Yield(t, kinds[..|kinds| - 1], name) + KindYield(t[kinds[|kinds| - 1]], name)
  }

  /** Crediting rules adds, to each resource, the level times the sum of the
      amounts of the rules that name it, and nothing to any other. */
  lemma {:induction false} CreditRulesAt(l: Resources, rules: seq<Rule>, level: int, name: string)
    requires RulesIn(rules, l)
    requires name in l
    ensures CreditRules(l, rules, level)[name] == l[name] + level * AmountFor(rules, name)
    decreases |rules|
  {
    if rules != [] {
      var init := rules[..|rules| - 1];
      assert RulesIn(init, l);
      CreditRulesAt(l, init, level, name);
    }
  }

  /** The production step adds to each resource exactly the catalog's yield for it. */
  lemma {:induction false} ProduceAt(l: Resources, t: Table, kinds: seq<Kind>, name: string)
    requires forall i :: 0 <= i < |kinds| ==> kinds[i] in t
    requires CatalogIn(t, l)
    requires name in l
    ensures Produce(l, t, kinds)[name] == l[name] + Yield(t, kinds, name)
    decreases |kinds|
  {
    if kinds != [] {
      var init := kinds[..|kinds| - 1];
      ProduceAt(l, t, init, name);
      var before := Produce(l, t, init);
      var f := t[kinds[|kinds| - 1]];
      if f.production.Some? {
        CreditRulesAt(before, f.production.value, f.level, name);
      }
    }
  }

  /** A resource named by no rule gets nothing. */
  lemma {:induction false} AmountForUnnamed(rules: seq<Rule>, name: string)
    requires forall i :: 0 <= i < |rules| ==> rules[i].0 != name
    ensures AmountFor(rules, name) == 0
    decreases |rules|
  {
    if rules != [] {
      AmountForUnnamed(rules[..|rules| - 1], name);
    }
  }

  /** With non-negative amounts, a rule list never takes anything away. */
  lemma {:induction false} AmountForNonNegative(rules: seq<Rule>, name: string)
    requires forall i :: 0 <= i < |rules| ==> rules[i].1 >= 0
    ensures AmountFor(rules, name) >= 0
    decreases |rules|
  {
    if rules != [] {
      AmountForNonNegative(rules[..|rules| - 1], name);
    }
  }

  /** On a well-formed catalog the yield of every resource is non-negative. */
  lemma {:induction false} YieldNonNegative(t: Table, kinds: seq<Kind>, name: string)
    requires forall i :: 0 <= i < |kinds| ==> kinds[i] in t
    requires WellFormed(t)
    ensures Yield(t, kinds, name) >= 0
    decreases |kinds|
  {
    if kinds != [] {
      YieldNonNegative(t, kinds[..|kinds| - 1], name);
      var f := t[kinds[|kinds| - 1]];
      if f.production.Some? {
        AmountForNonNegative(f.production.value, name);
      }
    }
  }

  /** A resource that no rule of the listed kinds names is left unchanged. */
  lemma {:induction false} YieldUnnamed(t: Table, kinds: seq<Kind>, name: string)
    requires forall i :: 0 <= i < |kinds| ==> kinds[i] in t
    requires forall i, j ::
               (0 <= i < |kinds| && t[kinds[i]].production.Some? && 0 <= j < |t[kinds[i]].production.value|) ==>
                 t[kinds[i]].production.value[j].0 != name
    ensures Yield(t, kinds, name) == 0
    decreases |kinds|
  {
    if kinds != [] {
      YieldUnnamed(t, kinds[..|kinds| - 1], name);
      var f := t[kinds[|kinds| - 1]];
      if f.production.Some? {
        AmountForUnnamed(f.production.value, name);
      }
    }
  }

  /** Production keeps non-negative totals non-negative and never lowers a total. */
  lemma ProduceNeverDecreases(l: Resources, t: Table, name: string)
    requires forall k :: k in AllKinds ==> k in t
    requires CatalogIn(t, l) && WellFormed(t)
    requires name in l
    ensures Produce(l, t, AllKinds)[name] >= l[name]
    ensures l[name] >= 0 ==> Produce(l, t, AllKinds)[name] >= 0
  {
    ProduceAt(l, t, AllKinds, name);
    YieldNonNegative(t, AllKinds, name);
  }

  /** With the shipped rules, whatever the levels and whatever is on the grid,
      one production step raises wood by the factory's current level and
      leaves every other resource as it was. */
  lemma ShippedProduce(l: Resources, t: Table)
    requires HasShippedRules(t)
    requires "wood" in l
    ensures CatalogIn(t, l)
    ensures Produce(l, t, AllKinds) == l["wood" := l["wood"] + t[Factory].level]
  {
    var p := Produce(l, t, AllKinds);
    assert CatalogIn(t, l) by {
      assert RulesIn([("wood", 1)], l);
    }
    forall name | name in l
      ensures p[name] == l["wood" := l["wood"] + t[Factory].level][name]
    {
      ProduceAt(l, t, AllKinds, name);
      var wood := [("wood", 1)];
      assert wood[..|wood| - 1] == [];
      assert AmountFor(wood, name) == if name == "wood" then 1 else 0;
      var ks := AllKinds;
      assert ks[..|ks| - 1] == [Warehouse, Factory];
      assert ks[..|ks| - 1][..1] == [Warehouse];
      assert [Warehouse][..0] == [];
      assert Yield(t, [Warehouse], name) == 0;
      assert Yield(t, [Warehouse, Factory], name) == KindYield(t[Factory], name);
      assert Yield(t, ks, name) == if name == "wood" then t[Factory].level else 0;
    }
    assert p.Keys == l.Keys;
  }
}
