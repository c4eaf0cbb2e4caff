/** The vehicle pool: a vehicle's per-frame movement step toward the head of its
    route, the assignment of a route to the first idle vehicle, and what
    repeated steps lead to (python.py:48-50, 95-122, 152). */
module Vehicles {
  import opened Wrappers

  /** Pixels per grid cell (python.py:10). */
  const TileSize: int := 32

  /** Pixels a vehicle moves along one axis in one step (python.py:50). */
  const Speed: int := 2

  /** The task tag an assigned vehicle carries (python.py:120). */
  const Transport: string := "transport"

  /** A grid cell a vehicle travels toward. */
  type Waypoint = (int, int)

  /** A vehicle: pixel position, remaining waypoints, optional task tag. */
  datatype Vehicle = Vehicle(x: int, y: int, route: seq<Waypoint>, task: Option<string>)

  /** The vehicle that the game loop adds at start (python.py:152). */
  const Seeded: Vehicle := Vehicle(0, 0, [], None)

  function Abs(n: int): nat
  {
    if n < 0 then -n else n
  }

  /** A vehicle has a task exactly when it has a route. */
  ghost predicate Consistent(v: Vehicle)
  {
    v.task.None? <==> v.route == []
  }

  ghost predicate AllConsistent(vs: seq<Vehicle>)
  {
    forall i :: 0 <= i < |vs| ==> Consistent(vs[i])
  }

  /** Pixel offset from the vehicle to its current waypoint along x (python.py:99-102). */
  function DeltaX(v: Vehicle): int
    requires v.route != []
  {
    v.route[0].0 * TileSize - v.x
  }

  /** Pixel offset from the vehicle to its current waypoint along y (python.py:99-102). */
  function DeltaY(v: Vehicle): int
    requires v.route != []
  {
    v.route[0].1 * TileSize - v.y
  }

  /** One frame of movement for one vehicle (python.py:98-113): x first while it
      is more than Speed away, then y, then the waypoint counts as reached and
      is popped, without snapping the position onto it; popping the last
      waypoint clears the task. A vehicle without a route is left alone. */
  function Step(v: Vehicle): (r: Vehicle)
    ensures v.route == [] ==> r == v
  {
    if v.route == [] then v
    else
      var dx := DeltaX(v);
      var dy := DeltaY(v);
      if Abs(dx) > Speed then v.(x := v.x + (if dx > 0 then Speed else -Speed))
      else if Abs(dy) > Speed then v.(y := v.y + (if dy > 0 then Speed else -Speed))
      else
        var rest := v.route[1..];
        if rest == [] then v.(route := rest, task := None) else v.(route := rest)
  }

  /** The update of the whole pool: every vehicle steps once (python.py:97). */
  function StepAll(vs: seq<Vehicle>): (r: seq<Vehicle>)
    ensures |r| == |vs|
  {
    seq(|vs|, i requires 0 <= i < |vs| => Step(vs[i]))
  }

  /** A routed vehicle does exactly one of three things in a step: it moves
      along x exactly when x is more than Speed off; it moves along y exactly
      when x is within Speed and y is not; it pops its head waypoint exactly
      when both are within Speed. It never moves both axes, and it clears its
      task only when the popped waypoint was the last. */
  lemma StepOneAction(v: Vehicle)
    requires v.route != []
    ensures var r := Step(v);
      (r.x != v.x <==> Abs(DeltaX(v)) > Speed) &&
      (r.y != v.y <==> Abs(DeltaX(v)) <= Speed && Abs(DeltaY(v)) > Speed) &&
      (|r.route| < |v.route| <==> Abs(DeltaX(v)) <= Speed && Abs(DeltaY(v)) <= Speed) &&
      (|r.route| < |v.route| ==> r.route == v.route[1..] && r.x == v.x && r.y == v.y &&
                                   r.task == (if r.route == [] then None else v.task)) &&
      (|r.route| >= |v.route| ==> r.route == v.route && r.task == v.task &&
                                    (r.x == v.x || r.y == v.y))
  {
  }

  /** No overshoot: a moving step brings the vehicle exactly Speed closer to its
      waypoint on the axis it moves along, keeping it strictly on the same side.
      (That a pop happens only within Speed on both axes is StepOneAction.) */
  lemma StepNoOvershoot(v: Vehicle)
    requires v.route != []
    ensures var r := Step(v);
      var tx := v.route[0].0 * TileSize;
      var ty := v.route[0].1 * TileSize;
      (r.x != v.x ==> Abs(tx - r.x) == Abs(tx - v.x) - Speed > 0 &&
                      (tx - r.x > 0 <==> tx - v.x > 0)) &&
      (r.y != v.y ==> Abs(ty - r.y) == Abs(ty - v.y) - Speed > 0 &&
                      (ty - r.y > 0 <==> ty - v.y > 0))
  {
  }

  /** A step keeps "task set exactly when the route is non-empty". */
  lemma StepKeepsConsistent(v: Vehicle)
    requires Consistent(v)
    ensures Consistent(Step(v))
  {
  }

  /** Remaining distance to the current waypoint along both axes. */
  function Dist(v: Vehicle): nat
  {
    if v.route == [] then 0 else Abs(DeltaX(v)) + Abs(DeltaY(v))
  }

  /** Termination measure: (route length, distance) falls lexicographically at
      every step of a routed vehicle. */
  lemma StepDecreases(v: Vehicle)
    requires v.route != []
    ensures |Step(v).route| < |v.route| ||
            (|Step(v).route| == |v.route| && Dist(Step(v)) < Dist(v))
  {
  }

  /** Steps `v` until its route is empty; that this is a function at all is the
      proof that movement always terminates. */
  function RunToIdle(v: Vehicle): (r: Vehicle)
    ensures r.route == []
    ensures v.route != [] ==> r.task.None?
    ensures Consistent(v) ==> r.task.None?
    decreases |v.route|, Dist(v)
  {
    if v.route == [] then v
    else
      StepDecreases(v);
      RunToIdle(Step(v))
  }

  /** `n` successive steps of one vehicle. */
  function StepN(v: Vehicle, n: nat): Vehicle
    decreases n
  {
    if n == 0 then v else StepN(Step(v), n - 1)
  }

  /** The number of steps after which a vehicle's route is empty. */
  function StepsToIdle(v: Vehicle): nat
    decreases |v.route|, Dist(v)
  {
    if v.route == [] then 0
    else
      StepDecreases(v);
      1 + StepsToIdle(Step(v))
  }

  /** An idle vehicle stays exactly where and as it is. */
  lemma {:induction false} IdleStays(v: Vehicle, n: nat)
    requires v.route == []
    ensures StepN(v, n) == v
    decreases n
  {
    if n > 0 {
      IdleStays(v, n - 1);
    }
  }

  /** Any number of steps at least StepsToIdle(v) brings the vehicle to the
      state RunToIdle describes: route empty and, from a consistent start,
      task cleared. */
  lemma {:induction false} StepNReachesIdle(v: Vehicle, n: nat)
    requires n >= StepsToIdle(v)
    ensures StepN(v, n) == RunToIdle(v)
    decreases |v.route|, Dist(v)
  {
    if v.route == [] {
      IdleStays(v, n);
    } else {
      StepDecreases(v);
      StepNReachesIdle(Step(v), n - 1);
    }
  }

  /** `n` successive updates of the whole pool. */
  function UpdateN(vs: seq<Vehicle>, n: nat): (r: seq<Vehicle>)
    ensures |r| == |vs|
    decreases n
  {
    if n == 0 then vs else UpdateN(StepAll(vs), n - 1)
  }

  /** Updating the pool steps each vehicle independently of the others. */
  lemma {:induction false} UpdateNAt(vs: seq<Vehicle>, n: nat, i: int)
    requires 0 <= i < |vs|
    ensures UpdateN(vs, n)[i] == StepN(vs[i], n)
    decreases n
  {
    if n > 0 {
      UpdateNAt(StepAll(vs), n - 1, i);
    }
  }

  /** Repeated updates drain the pool: once every vehicle has had its
      StepsToIdle, every route is empty and, from a consistent pool, every
      vehicle is idle. */
  lemma PoolDrains(vs: seq<Vehicle>, n: nat)
    requires forall i :: 0 <= i < |vs| ==> StepsToIdle(vs[i]) <= n
    ensures forall i :: 0 <= i < |vs| ==> UpdateN(vs, n)[i].route == []
    ensures AllConsistent(vs) ==> forall i :: 0 <= i < |vs| ==> UpdateN(vs, n)[i].task.None?
  {
    forall i | 0 <= i < |vs|
      ensures UpdateN(vs, n)[i] == RunToIdle(vs[i])
    {
      UpdateNAt(vs, n, i);
      StepNReachesIdle(vs[i], n);
    }
  }

  /** Where an axis movement stops: the signed offset left to the target once
      the offset is within Speed, moving Speed at a time. */
  function Settle(d: int): (r: int)
    ensures -Speed <= r <= Speed
    ensures (r > 0 <==> d > 0) && (r < 0 <==> d < 0)
    ensures (d - r) % Speed == 0
    ensures Abs(d) <= Speed ==> r == d
    decreases Abs(d)
  {
    if d > Speed then Settle(d - Speed)
    else if d < -Speed then Settle(d + Speed)
    else d
  }

  /** The vehicle once it has reached its current waypoint: each axis stops
      Settle(offset) short of the target, the head waypoint is gone, and the
      task is cleared if it was the last. */
  function Arrive(v: Vehicle): (r: Vehicle)
    requires v.route != []
    ensures Abs(v.route[0].0 * TileSize - r.x) <= Speed
    ensures Abs(v.route[0].1 * TileSize - r.y) <= Speed
    ensures r.route == v.route[1..]
  {
    var rest := v.route[1..];
    Vehicle(v.route[0].0 * TileSize - Settle(DeltaX(v)),
            v.route[0].1 * TileSize - Settle(DeltaY(v)),
            rest,
            if rest == [] then None else v.task)
  }

  /** The leg to the head waypoint ends exactly where Arrive says: some number
      of steps lead from `v` to Arrive(v), so running to idle from `v` and
      from Arrive(v) give the same result. */
  lemma {:induction false} ReachWaypoint(v: Vehicle)
    requires v.route != []
    ensures exists k: nat :: StepN(v, k) == Arrive(v)
    ensures RunToIdle(v) == RunToIdle(Arrive(v))
    decreases Dist(v)
  {
    var dx, dy := DeltaX(v), DeltaY(v);
    var s := Step(v);
    assert RunToIdle(v) == RunToIdle(s);
    if Abs(dx) > Speed || Abs(dy) > Speed {
      if Abs(dx) > Speed {
        assert DeltaX(s) == dx - (if dx > 0 then Speed else -Speed);
        assert Settle(DeltaX(s)) == Settle(dx);
      } else {
        assert DeltaY(s) == dy - (if dy > 0 then Speed else -Speed);
        assert Settle(DeltaY(s)) == Settle(dy);
      }
      assert Arrive(s) == Arrive(v);
      ReachWaypoint(s);
      var k: nat :| StepN(s, k) == Arrive(s);
      assert StepN(v, k + 1) == Arrive(v);
    } else {
      assert s == Arrive(v);
      assert StepN(v, 1) == Arrive(v);
    }
  }

  /** From (0,0) with route [(1,0),(1,1)] the vehicle ends idle at (30,30),
      two pixels short of the last waypoint's (32,32) on both axes. */
  lemma TwoLegRouteEndsShort()
    ensures RunToIdle(Vehicle(0, 0, [(1, 0), (1, 1)], Some(Transport))) == Vehicle(30, 30, [], None)
  {
    var v0 := Vehicle(0, 0, [(1, 0), (1, 1)], Some(Transport));
    ReachWaypoint(v0);
    var v1 := Arrive(v0);
    assert Settle(32) == 2;
    assert v1 == Vehicle(30, 0, [(1, 1)], Some(Transport));
    ReachWaypoint(v1);
    assert Arrive(v1) == Vehicle(30, 30, [], None);
  }

  /** The index of the first vehicle without a task, if any (python.py:117-118). */
  function FirstIdle(vs: seq<Vehicle>): (r: Option<nat>)
    ensures r.Some? ==> r.value < |vs| && vs[r.value].task.None? &&
                        forall j :: 0 <= j < r.value ==> vs[j].task.Some?
    ensures r.None? ==> forall j :: 0 <= j < |vs| ==> vs[j].task.Some?
  {
    if vs == [] then None
    else if vs[0].task.None? then Some(0)
    else
      match FirstIdle(vs[1..])
      case None => None
      case Some(i) => Some(i + 1)
  }

  /** A vehicle given the route [source, destination] and the transport task
      (python.py:119-120). */
  function Dispatch(v: Vehicle, source: Waypoint, destination: Waypoint): Vehicle
  {
    v.(route := [source, destination], task := Some(Transport))
  }

  /** The pool after assignment (python.py:115-122): the first idle vehicle is
      dispatched; busy vehicles are never touched; with no idle vehicle the
      pool is unchanged. */
  function Assigned(vs: seq<Vehicle>, source: Waypoint, destination: Waypoint): (r: seq<Vehicle>)
    ensures |r| == |vs|
    ensures forall j :: 0 <= j < |vs| && vs[j].task.Some? ==> r[j] == vs[j]
    ensures (forall j :: 0 <= j < |vs| ==> vs[j].task.Some?) ==> r == vs
    ensures (exists j :: 0 <= j < |vs| && vs[j].task.None?) ==>
              exists i :: 0 <= i < |vs| && vs[i].task.None? &&
                (forall j :: 0 <= j < i ==> vs[j].task.Some?) &&
                r == vs[i := Dispatch(vs[i], source, destination)]
  {
    match FirstIdle(vs)
    case None => vs
    case Some(i) => vs[i := Dispatch(vs[i], source, destination)]
  }

  /** At most one vehicle changes in an assignment. */
  lemma AssignChangesAtMostOne(vs: seq<Vehicle>, source: Waypoint, destination: Waypoint, j: int, k: int)
    requires 0 <= j < |vs| && 0 <= k < |vs|
    requires Assigned(vs, source, destination)[j] != vs[j]
    requires Assigned(vs, source, destination)[k] != vs[k]
    ensures j == k
  {
  }

  /** Assignment keeps every vehicle's task consistent with its route. */
  lemma AssignKeepsConsistent(vs: seq<Vehicle>, source: Waypoint, destination: Waypoint)
    requires AllConsistent(vs)
    ensures AllConsistent(Assigned(vs, source, destination))
  {
  }

  /** One pool update keeps every vehicle's task consistent with its route. */
  lemma StepAllKeepsConsistent(vs: seq<Vehicle>)
    requires AllConsistent(vs)
    ensures AllConsistent(StepAll(vs))
  {
    forall i | 0 <= i < |vs|
      ensures Consistent(StepAll(vs)[i])
    {
      StepKeepsConsistent(vs[i]);
    }
  }
}
