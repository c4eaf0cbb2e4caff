# Logistics simulator state engine, in Dafny

This project models the simulation state of a small tile-grid logistics game,
the single Python file `python.py`. It covers five parts:

- the placement grid of 25 by 18 cells, each empty or holding a facility kind;
- the facility catalog (warehouse, factory, depot). Each kind has a capacity, a level and optional production rules. Upgrading a placed facility changes the catalog entry for its kind in place;
- the resource ledger (wood, metal, fuel) and the production step that credits it;
- the vehicle pool. Each vehicle has a pixel position, a route of grid waypoints and an optional task. The model covers the assignment of a route to the first idle vehicle, and the per-frame movement step (x first, then y, then pop the waypoint);
- the update part of one game-loop frame: production when it is due, then one movement step.

Layout:

- `wrappers.dfy`: `Option`.
- `catalog.dfy`, module `Catalog`: facility kinds, the shipped catalog and the upgrade rule.
- `ledger.dfy`, module `Ledger`: the ledger, the production step as a function, and what it adds to each resource.
- `vehicles.dfy`, module `Vehicles`: the vehicle record, the movement step and its properties, termination, the exact stopping point of a leg, and assignment.
- `simulation.dfy`, module `Simulation`: class `Sim`. It holds the grid (`array2`), the catalog (`map`), the ledger (`map`) and the pool (`seq`). Its methods change that state in place, as the Python functions change the module-level variables. `UpgradeFacility`, `UpdateResources`, `UpdateVehicles`, `AssignVehicle` and `Frame` are each proved against functions of the other modules. `PlaceFacility` and `SeedVehicle` state their new state directly.

## Behaviour kept as the code has it

- `place_facility`, `upgrade_facility` and `assign_vehicle` return None. Callers get no sign of whether anything changed.
- No bounds are checked (python.py:84, 126). The grid is 25 lists of 18 cells (python.py:57). A negative index wraps: -25 <= x < 0 and -18 <= y < 0 pick cells counted from the far end. x >= 25, x <= -26, y >= 18 or y <= -19 raise IndexError.
- Production scans the catalog's kinds, not the placed facilities (python.py:135-138). The factory's wood is credited once per step whether zero or many factories are placed.
- An upgrade changes the shared catalog entry for the kind (python.py:128-129). Every cell holding that kind sees the new level and capacity.
- A vehicle reaches a waypoint when it is within `VEHICLE_SPEED` on both axes. It is not snapped onto the waypoint. From (0,0) with route [(1,0),(1,1)] it ends idle at (30,30), not (32,32) (`Vehicles.TwoLegRouteEndsShort`).
- Production runs when a wall-clock test passes (python.py:188). Here the test's outcome is the `tickDue` parameter of `Frame`.

## Model

| member | source | states |
|---|---|---|
| Catalog.ShippedTable | python.py:42-46 | the catalog holds exactly the three kinds, all at level 1, and only the factory has a rule (one wood per level) |
| Catalog.ShippedRulesCoverKinds | python.py:42-46 | a catalog with the shipped rules has an entry for every facility kind, so every placed kind can be looked up |
| Catalog.UpgradedTimesAdds | python.py:128-129 | after n upgrades an entry's level has grown by exactly n and its capacity by exactly 10n; its production rules are unchanged |
| Catalog.UpgradesMonotone | python.py:128-129 | level and capacity never decrease over a sequence of upgrades |
| Catalog.UpgradeKeepsTable | python.py:128-129 | upgrading an entry keeps the catalog well formed and keeps its production rules |
| Ledger.ShippedResources | python.py:60 | the ledger starts with wood, metal and fuel, all at 0 |
| Ledger.CreditRules | python.py:137-138 | crediting a rule list changes no ledger keys |
| Ledger.CreditKind | python.py:136-138 | crediting one catalog entry changes no ledger keys; the per-resource gain is stated by ProduceAt |
| Ledger.Produce | python.py:135-138 | the production step over the catalog's kinds keeps the ledger's set of resources |
| Ledger.CreditRulesAt | python.py:137-138 | each resource gains the level times the sum of the amounts of the rules naming it |
| Ledger.ProduceAt | python.py:135-138 | the production step adds to each resource exactly the catalog's yield for it, level times amount summed over the kinds |
| Ledger.YieldUnnamed | python.py:135-138 | a resource named by no rule of any kind gets nothing, so it is unchanged |
| Ledger.YieldNonNegative | python.py:135-138 | with levels of at least 1 and non-negative amounts, no resource's yield is negative |
| Ledger.ProduceNeverDecreases | python.py:135-138 | production never lowers a total, so non-negative totals stay non-negative |
| Ledger.ShippedProduce | python.py:132-138 | with the shipped rules, one step raises wood by the factory's current level and leaves everything else unchanged, whatever the grid holds |
| Vehicles.Step | python.py:98 | a vehicle with an empty route is left unchanged |
| Vehicles.StepAll | python.py:97 | one pool update keeps the number of vehicles |
| Vehicles.StepOneAction | python.py:104-113 | a routed vehicle does exactly one of three things: it moves along x iff x is more than the speed off; it moves along y iff x is within the speed and y is not; it pops its head waypoint iff both are within the speed. It never moves both axes, and it clears its task only when the popped waypoint was the last |
| Vehicles.StepNoOvershoot | python.py:102-108 | a moving step brings the vehicle exactly the speed closer on its axis and keeps it strictly on the same side of the waypoint |
| Vehicles.StepKeepsConsistent | python.py:111-113 | a step keeps "task set iff route non-empty" |
| Vehicles.StepAllKeepsConsistent | python.py:97-113 | a pool update keeps "task set iff route non-empty" for every vehicle |
| Vehicles.StepDecreases | python.py:98-113 | (route length, remaining distance) strictly decreases lexicographically at every step of a routed vehicle |
| Vehicles.RunToIdle | python.py:98-113 | stepping always terminates with an empty route and, from a routed or consistent vehicle, no task |
| Vehicles.IdleStays | python.py:98 | any number of steps leave an idle vehicle as it is |
| Vehicles.StepNReachesIdle | python.py:98-113 | after at least StepsToIdle(v) steps the vehicle is in the idle state RunToIdle gives |
| Vehicles.UpdateNAt | python.py:97 | n pool updates step each vehicle n times, independently of the others |
| Vehicles.PoolDrains | python.py:97-113 | enough repeated pool updates empty every route and, from a consistent pool, clear every task |
| Vehicles.Settle | python.py:105-108 | moving the speed at a time, an axis stops within the speed of its target, on the same side as it started, and a multiple of the speed from where it started |
| Vehicles.Arrive | python.py:105-111 | the end of a leg is within the speed of the waypoint on both axes, and the head waypoint is gone |
| Vehicles.ReachWaypoint | python.py:104-111 | some number of steps take a routed vehicle exactly to Arrive of its current leg, so running to idle from the vehicle and from Arrive give the same result |
| Vehicles.TwoLegRouteEndsShort | python.py:99-113 | from (0,0) with route [(1,0),(1,1)] the vehicle ends idle at (30,30) with an empty route |
| Vehicles.FirstIdle | python.py:117-118 | finds the lowest index of a vehicle without a task, or reports that every vehicle is busy |
| Vehicles.Assigned | python.py:115-122 | the first idle vehicle gets route [source, destination] and the transport task; busy vehicles are never touched; with no idle vehicle the pool is unchanged |
| Vehicles.AssignChangesAtMostOne | python.py:117-122 | at most one vehicle changes in an assignment |
| Vehicles.AssignKeepsConsistent | python.py:119-120 | assignment keeps "task set iff route non-empty" for every vehicle |
| Simulation.Sim.constructor | python.py:42-60 | the starting state: empty 25 by 18 grid, shipped catalog and ledger, no vehicles |
| Simulation.Sim.SeedVehicle | python.py:152 | appends the idle vehicle at (0,0) and keeps the state valid |
| Simulation.Sim.PlaceFacility | python.py:82-86 | an empty cell receives the kind; an occupied cell is never overwritten; no other cell changes |
| Simulation.Sim.UpgradeFacility | python.py:124-130 | on an occupied cell, that kind's shared entry gains exactly one level and 10 capacity and no other entry changes; on an empty cell nothing changes; levels and capacities never decrease |
| Simulation.Sim.UpdateResources | python.py:132-138 | the nested loops leave the ledger equal to Produce of the old ledger: wood rises by the factory's level and nothing else changes |
| Simulation.Sim.UpdateVehicles | python.py:95-113 | the loop leaves every vehicle stepped exactly once, and the pool stays consistent |
| Simulation.Sim.AssignVehicle | python.py:115-122 | the search-and-break loop leaves the pool equal to Assigned of the old pool |
| Simulation.Sim.Frame | python.py:187-190 | production when it is due, then one movement step for every vehicle |

## Left out

- Display and input are left out because they are rendering and input plumbing. This covers pygame setup, screen, fonts, clock, colours and the `draw_*` functions (python.py:1-33, 64-80, 88-93, 140-145). It also covers the event loop's key and mouse dispatch (python.py:148-186), except the vehicle seeding at python.py:152, which `Sim.SeedVehicle` models.
- In the event loop, the upgrade branch at python.py:171 can never fire, because it sits inside the left-button test. The assign path at python.py:183-185 can never fire either, because `selected_source` is never set.
- Sim.PlaceFacility and Sim.UpgradeFacility require 0 <= x < 25 and 0 <= y < 18. So neither the negative-index wrap nor the IndexError of python.py:84 and python.py:126 is modelled. No click can give a negative index, because mouse positions are never negative.
- Mouse-to-cell translation (python.py:168) is left out. It can produce row 18, which is off the grid. The model requires in-bounds coordinates instead.
- The wall-clock production test `get_ticks() % 1000 < 16` (python.py:188) depends on real time. It is the `tickDue` parameter of `Frame`. The model has no notion of elapsed time, so it states nothing about how often production fires.
- `print`, `pygame.quit` and `sys.exit` (python.py:86, 121, 130, 161-162) are diagnostic output and process control.
- The unused `resource_production` table (python.py:61) is left out. Nothing reads it.
- The colour field of catalog entries is left out because only drawing reads it.
- Facility kinds are strings in the source. They are an enumeration of the three names here, since the game only ever selects those three (python.py:176-181).
- Vehicles are dictionaries mutated in place in the source. Here they are values in a sequence that the methods reassign. Nothing else holds a reference to a vehicle, so no aliasing is lost.
