/** The simulation state of the game: the placement grid, the mutable facility
    catalog, the resource ledger and the vehicle pool, with the operations the
    game loop calls on them (python.py:42-61, 82-86, 95-138, 152, 187-190). */
module Simulation {
  import opened Wrappers
  import opened Catalog
  import opened Ledger
  import opened Vehicles

  /** Screen size in pixels (python.py:8-9). */
  const ScreenWidth: int := 800
  const ScreenHeight: int := 600

  /** Grid size in cells: 25 by 18 (python.py:53-54). */
  const GridWidth: int := ScreenWidth / TileSize
  const GridHeight: int := ScreenHeight / TileSize

  class Sim {
    /** The placement grid, indexed grid[x, y] (python.py:57). */
    const grid: array2<Option<Kind>>
    /** The facility catalog, shared by every cell holding a kind (python.py:42-46). */
    var catalog: Table
    /** The resource ledger (python.py:60). */
    var resources: Resources
    /** The vehicle pool (python.py:49). */
    var vehicles: seq<Vehicle>

    /** The state every operation keeps: the grid has its fixed size, the
        catalog holds the three kinds with the shipped rules and sane levels
        and capacities, the ledger holds the three resources with
        non-negative totals, and each vehicle has a task exactly when it has
        a route. */
    ghost predicate Valid()
      reads this
    {
      grid.Length0 == GridWidth && grid.Length1 == GridHeight &&
      HasShippedRules(catalog) && WellFormed(catalog) &&
      // Implied by HasShippedRules (ShippedRulesCoverKinds), but stated here so
      // that UpgradeFacility's contract can look up any placed kind.
      (forall k: Kind :: k in catalog) &&
      resources.Keys == {"wood", "metal", "fuel"} &&
      (forall r :: r in resources ==> resources[r] >= 0) &&
      AllConsistent(vehicles)
    }

    /** The module-level state as the program starts: an empty grid, the
        shipped catalog and ledger, and no vehicles yet. */
    constructor ()
      ensures Valid() && fresh(grid)
      ensures forall i, j :: 0 <= i < GridWidth && 0 <= j < GridHeight ==> grid[i, j] == None
      ensures catalog == ShippedTable()
      ensures resources == ShippedResources()
      ensures vehicles == []
    {
      grid := new Option<Kind>[GridWidth, GridHeight]((i, j) => None);
      catalog := ShippedTable();
      ShippedRulesCoverKinds(ShippedTable());
      resources := ShippedResources();
      vehicles := [];
    }

    /** Adds the idle vehicle at (0,0) that the game loop starts with (python.py:152). */
    method SeedVehicle()
      requires Valid()
      modifies this`vehicles
      ensures Valid()
      ensures vehicles == old(vehicles) + [Seeded]
    {
      vehicles := vehicles + [Seeded];
    }

    /** Places `kind` at (x, y) if that cell is empty (python.py:82-86). An
        occupied cell keeps its occupant, and no other cell changes. */
    method PlaceFacility(kind: Kind, x: int, y: int)
      requires Valid()
      requires 0 <= x < GridWidth && 0 <= y < GridHeight
      modifies grid
      ensures Valid()
      ensures old(grid[x, y]).None? ==> grid[x, y] == Some(kind)
      ensures forall i, j :: 0 <= i < GridWidth && 0 <= j < GridHeight && old(grid[i, j]).Some? ==>
                grid[i, j] == old(grid[i, j])
      ensures forall i, j :: 0 <= i < GridWidth && 0 <= j < GridHeight && (i, j) != (x, y) ==>
                grid[i, j] == old(grid[i, j])
    {
      if grid[x, y] == None {
        grid[x, y] := Some(kind);
      }
    }

    /** Upgrades the kind occupying (x, y) (python.py:124-130): its shared
        catalog entry gains one level and CapacityStep capacity, so every cell
        holding that kind sees the change. Other kinds, the grid, the ledger
        and the vehicles are untouched; on an empty cell nothing changes. */
    method UpgradeFacility(x: int, y: int)
      requires Valid()
      requires 0 <= x < GridWidth && 0 <= y < GridHeight
      modifies this`catalog
      ensures Valid()
      ensures old(grid[x, y]).None? ==> catalog == old(catalog)
      ensures old(grid[x, y]).Some? ==>
                var k := old(grid[x, y]).value;
                catalog == old(catalog)[k := Upgraded(old(catalog)[k])] &&
                catalog[k].level == old(catalog)[k].level + 1 &&
                catalog[k].capacity == old(catalog)[k].capacity + CapacityStep
      ensures forall k :: k in catalog ==>
                catalog[k].level >= old(catalog)[k].level && catalog[k].capacity >= old(catalog)[k].capacity
    {
      var facility := grid[x, y];
      if facility.Some? {
        var k := facility.value;
        UpgradeKeepsTable(catalog, k);
        catalog := catalog[k := Upgraded(catalog[k])];
      }
    }

    /** One production step (python.py:132-138): for each catalog entry with
        rules, in catalog order, each named resource gains amount * level.
        Kinds are credited once whether they are placed zero or many times,
        so with the shipped rules wood rises by the factory's level and
        nothing else changes. */
    method UpdateResources()
      requires Valid()
      modifies this`resources
      ensures Valid()
      ensures resources == Produce(old(resources), catalog, AllKinds)
      ensures resources == old(resources)["wood" := old(resources)["wood"] + catalog[Factory].level]
    {
      ShippedProduce(resources, catalog);
      ghost var start := resources;
      for i := 0 to |AllKinds|
        invariant resources == Produce(start, catalog, AllKinds[..i])
      {
        assert AllKinds[..i + 1][..i] == AllKinds[..i];
        var data := catalog[AllKinds[i]];
        if data.production.Some? {
          var rules := data.production.value;
          ghost var before := resources;
          for j := 0 to |rules|
            invariant RulesIn(rules, before)
            invariant resources == CreditRules(before, rules[..j], data.level)
          {
            assert rules[..j + 1][..j] == rules[..j];
            var (name, amount) := rules[j];
            resources := resources[name := resources[name] + amount * data.level];
          }
          assert rules[..|rules|] == rules;
        }
      }
      assert AllKinds[..|AllKinds|] == AllKinds;
    }

    /** One frame of movement for the whole pool (python.py:95-113): every
        vehicle takes one Step, in pool order. */
    method UpdateVehicles()
      requires Valid()
      modifies this`vehicles
      ensures Valid()
      ensures vehicles == StepAll(old(vehicles))
    {
      StepAllKeepsConsistent(vehicles);
      ghost var start := vehicles;
      for i := 0 to |vehicles|
        invariant |vehicles| == |start|
        invariant forall j :: 0 <= j < i ==> vehicles[j] == Step(start[j])
        invariant forall j :: i <= j < |vehicles| ==> vehicles[j] == start[j]
      {
        vehicles := vehicles[i := Step(vehicles[i])];
      }
    }

    /** Gives the first vehicle without a task the route [source, destination]
        and the transport task, then stops searching (python.py:115-122). */
    method AssignVehicle(source: Waypoint, destination: Waypoint)
      requires Valid()
      modifies this`vehicles
      ensures Valid()
      ensures vehicles == Assigned(old(vehicles), source, destination)
    {
      AssignKeepsConsistent(vehicles, source, destination);
      ghost var start := vehicles;
      var i := 0;
      while i < |vehicles|
        invariant 0 <= i <= |vehicles|
        invariant vehicles == start
        invariant forall j :: 0 <= j < i ==> vehicles[j].task.Some?
      {
        if vehicles[i].task.None? {
          vehicles := vehicles[i := Dispatch(vehicles[i], source, destination)];
          assert FirstIdle(start) == Some(i);
          return;
        }
        i := i + 1;
      }
    }

    /** One pass of the game loop's update (python.py:187-190): production
        when the clock says it is due, then the vehicle step. The wall-clock
        test is the `tickDue` parameter. */
    method Frame(tickDue: bool)
      requires Valid()
      modifies this`resources, this`vehicles
      ensures Valid()
      ensures resources == if tickDue then Produce(old(resources), catalog, AllKinds) else old(resources)
      ensures vehicles == StepAll(old(vehicles))
    {
      if tickDue {
        UpdateResources();
      }
      UpdateVehicles();
    }
  }
}
