/**
 * The per-frame logic of the camera loop (`main`, main.py): the visibility counters of the two
 * cars, admission of detected cars into the queue, lane assignment from the corridor boxes, and
 * tracking of pedestrians by box overlap. Detection and colour matching are not modelled: each
 * frame arrives as a list of boxes, and a car box carries the name the colour matcher gave it.
 */
module Tracking {
  import opened Options
  import opened Geometry
  import opened Layout
  import opened Vehicles
  import opened Pedestrians
  import opened Arbitration
  import opened Sweep
  import opened Queuing

  /** One box of a frame: a car together with the colour matcher's answer (a key of `cars` or
      `"Unidentified"`), or a pedestrian. */
  datatype Detection = CarBox(box: Rect, name: string) | PersonBox(box: Rect)

  // ---------------------------------------------------------------------------------------
  // Visibility

  /** The start-of-frame update of a car's visibility counter. */
  function Tick(r: VehicleRecord): (r': VehicleRecord)
    ensures r' == r.(isVisible := r'.isVisible, timeSinceVisible := r'.timeSinceVisible)
    ensures r'.timeSinceVisible <= 1
    ensures r'.isVisible ==> r.isVisible
  {
    if r.timeSinceVisible > 0 then r.(isVisible := false, timeSinceVisible := 0)
    else r.(timeSinceVisible := r.timeSinceVisible + 1)
  }

  /** The visibility update when the car is detected: seen again within the 51-tick window. */
  function Sighted(r: VehicleRecord): (r': VehicleRecord)
    ensures r' == r.(isVisible := r'.isVisible, timeSinceVisible := r'.timeSinceVisible)
    ensures r'.timeSinceVisible <= r.timeSinceVisible
  {
    if r.timeSinceVisible < 51 then r.(isVisible := true, timeSinceVisible := 0) else r
  }

  /** What one pass of the lane loop does to a detected car: new box, lane fix moved to the
      previous fix, new lane fix, and the visibility update. */
  function Sighting(r: VehicleRecord, box: Rect, fix: LaneFix): (r': VehicleRecord)
    ensures r'.contour == box && r'.lane == fix && r'.previousLane == r.lane
    ensures r.timeSinceVisible <= 1 ==> r'.isVisible && r'.timeSinceVisible == 0
  {
    Sighted(r.(contour := box, previousLane := r.lane, lane := fix))
  }

  /** A car that misses two frames in a row is invisible, whatever its state before. */
  lemma {:induction false} LostAfterTwoTicks(r: VehicleRecord)
    ensures !Tick(Tick(r)).isVisible
    ensures Tick(Tick(r)).timeSinceVisible <= 1
  {
    if r.timeSinceVisible == 0 {
      assert Tick(r).timeSinceVisible == 1;
    }
  }

  /** After the start-of-frame update the counter is at most 1, so a detection always makes the
      car visible: the 51-tick window never closes. */
  lemma {:induction false} SightingAfterTick(r: VehicleRecord, box: Rect, fix: LaneFix)
    ensures var s := Sighting(Tick(r), box, fix);
      s.isVisible && s.timeSinceVisible == 0 && s.contour == box && s.lane == fix
  {
    assert Tick(r).timeSinceVisible <= 1;
  }

  // ---------------------------------------------------------------------------------------
  // Lane assignment

  /** The overlap of a box `[x, y, w, h]` with a corridor, as `intersectionBetweenRectangles`
      computes it from the box's corners and the corridor's corners. */
  function Score(box: Rect, c: Corridor): (area: int)
    ensures area >= 0
  {
    OverlapArea(Point(box.x, box.y), Point(box.x + box.w, box.y + box.h), c.corner, c.farCorner)
  }

  /** Corridor `k` is the lane assignment's choice among `lanes`: its overlap is positive,
      strictly larger than every earlier corridor's and at least every later one's. */
  predicate IsBest(box: Rect, lanes: seq<Corridor>, k: int) {
    0 <= k < |lanes| && Score(box, lanes[k]) > 0 &&
    (forall j :: 0 <= j < k ==> Score(box, lanes[j]) < Score(box, lanes[k])) &&
    (forall j :: k < j < |lanes| ==> Score(box, lanes[j]) <= Score(box, lanes[k]))
  }

  /** `fix` is a lane fix the assignment can yield for `box`: `Undefined` when no corridor
      overlaps, and otherwise the name of the best corridor. */
  ghost predicate Picks(box: Rect, lanes: seq<Corridor>, fix: LaneFix) {
    (fix == Undefined && forall j :: 0 <= j < |lanes| ==> Score(box, lanes[j]) == 0) ||
    (exists k :: IsBest(box, lanes, k) && fix == At(lanes[k].name))
  }

  /** The lane loop's effect on a detected car whose record was `before`: the box, visibility
      and both lane fixes are updated, the lane being the best corridor of all eight and the
      previous lane the best of the first seven; only the maneuver may differ otherwise. */
  ghost predicate Located(before: VehicleRecord, after: VehicleRecord, box: Rect) {
    after == Sighting(before.(direction := after.direction), box, after.lane).(previousLane := after.previousLane) &&
    Picks(box, Lanes, after.lane) && Picks(box, Lanes[..7], after.previousLane)
  }

  /** There is at most one best corridor: ties go to the earlier one. */
  lemma BestIsUnique(box: Rect, lanes: seq<Corridor>, j: int, k: int)
    requires IsBest(box, lanes, j) && IsBest(box, lanes, k)
    ensures j == k
  {
  }

  /** Lane assignment is deterministic: a box has at most one lane fix. */
  lemma {:induction false} PicksIsDeterministic(box: Rect, lanes: seq<Corridor>, f: LaneFix, g: LaneFix)
    requires Picks(box, lanes, f) && Picks(box, lanes, g)
    ensures f == g
  {
    if f.At? {
      var j :| IsBest(box, lanes, j) && f == At(lanes[j].name);
      var k :| IsBest(box, lanes, k) && g == At(lanes[k].name);
      BestIsUnique(box, lanes, j, k);
    }
  }

  /** A box inside the top lane's inbound corridor is assigned that corridor. */
  lemma {:induction false} InsideTopForward()
    ensures Picks(Rect(230, 20, 30, 40), Lanes, At(Lane(Top, Forward)))
  {
    var box := Rect(230, 20, 30, 40);
    LanesCorners();
    assert Score(box, Lanes[0]) == 0 && Score(box, Lanes[1]) == 1200;
    assert Score(box, Lanes[2]) == 0 && Score(box, Lanes[3]) == 0;
    assert Score(box, Lanes[4]) == 0 && Score(box, Lanes[5]) == 0;
    assert Score(box, Lanes[6]) == 0 && Score(box, Lanes[7]) == 0;
    assert IsBest(box, Lanes, 1);
  }

  /** A box straddling the two top corridors with equal overlap on each goes to the one listed
      first, the outbound corridor. */
  lemma {:induction false} TieGoesToFirstListed()
    ensures Score(Rect(263, 20, 21, 40), Lanes[0]) == Score(Rect(263, 20, 21, 40), Lanes[1]) > 0
    ensures Picks(Rect(263, 20, 21, 40), Lanes, At(Lane(Top, Backward)))
  {
    var box := Rect(263, 20, 21, 40);
    LanesCorners();
    assert Score(box, Lanes[0]) == 400 && Score(box, Lanes[1]) == 400;
    assert forall j :: 2 <= j < |Lanes| ==> Score(box, Lanes[j]) == 0;
    assert IsBest(box, Lanes, 0);
  }

  /** A box away from every corridor leaves the car untracked. */
  lemma {:induction false} OutsideEveryLane()
    ensures Picks(Rect(270, 250, 10, 10), Lanes, Undefined)
  {
    var box := Rect(270, 250, 10, 10);
    LanesCorners();
    assert forall j :: 0 <= j < |Lanes| ==> Score(box, Lanes[j]) == 0;
  }

  /** The lane loop's running state after the first `n` corridors: `best` is the index of the
      chosen corridor (or -1), `area` its overlap and `fix` its name. */
  ghost predicate Leading(box: Rect, lanes: seq<Corridor>, n: nat, best: int, area: int, fix: LaneFix) {
    n <= |lanes| && -1 <= best < n &&
    (best < 0 ==> (fix == Undefined && area == 0 && forall j :: 0 <= j < n ==> Score(box, lanes[j]) == 0)) &&
    (best >= 0 ==> (IsBest(box, lanes[..n], best) && fix == At(lanes[best].name) && area == Score(box, lanes[best])))
  }

  lemma LeadingStart(box: Rect, lanes: seq<Corridor>)
    ensures Leading(box, lanes, 0, -1, 0, Undefined)
  {
  }

  /** The running state describes a lane fix for the corridors seen so far. */
  lemma {:induction false} LeadingPicks(box: Rect, lanes: seq<Corridor>, n: nat, best: int, area: int, fix: LaneFix)
    requires Leading(box, lanes, n, best, area, fix)
    ensures Picks(box, lanes[..n], fix)
  {
    if best >= 0 {
      assert IsBest(box, lanes[..n], best) && fix == At(lanes[..n][best].name);
    }
  }

  /** One corridor more: a strictly larger overlap takes over, anything else keeps the choice. */
  lemma {:induction false} LeadingStep(box: Rect, lanes: seq<Corridor>, n: nat, best: int, area: int, fix: LaneFix)
    requires Leading(box, lanes, n, best, area, fix) && n < |lanes|
    ensures Score(box, lanes[n]) > area ==>
      Leading(box, lanes, n + 1, n, Score(box, lanes[n]), At(lanes[n].name))
    ensures Score(box, lanes[n]) <= area ==> Leading(box, lanes, n + 1, best, area, fix)
    ensures Picks(box, lanes[..n], fix)
  {
    LeadingPicks(box, lanes, n, best, area, fix);
    var s := Score(box, lanes[n]);
    var p, p' := lanes[..n], lanes[..n + 1];
    assert forall j :: 0 <= j < n ==> p'[j] == p[j] == lanes[j];
    if s > area {
      assert forall j :: 0 <= j < n ==> Score(box, lanes[j]) <= area;
      assert IsBest(box, p', n);
    } else if best >= 0 {
      assert IsBest(box, p', best);
    }
  }

  /** The loop's containment test only skips corridors the box does not overlap. */
  lemma ScoreNeedsContact(box: Rect, c: Corridor)
    ensures (!(box.x + box.w >= c.corner.x && box.x <= c.corner.x + (c.farCorner.x - c.corner.x) &&
      box.y + box.h >= c.corner.y && box.y <= c.corner.y + (c.farCorner.y - c.corner.y))) ==>
      Score(box, c) == 0
  {
  }

  /** Updating a car twice in one frame is one update whose previous lane fix is the first
      update's lane fix. */
  lemma SightingAgain(r: VehicleRecord, box: Rect, f: LaneFix, p: LaneFix, g: LaneFix)
    ensures Sighting(Sighting(r, box, f).(previousLane := p), box, g) == Sighting(r, box, g).(previousLane := f)
  {
  }

  // ---------------------------------------------------------------------------------------
  // Pedestrian identities

  function Digit(d: nat): char
    requires d < 10
  {
    "0123456789"[d]
  }

  /** `str(n)` for a natural number. */
  function NatToString(n: nat): (s: string)
    ensures |s| >= 1
    ensures n >= 10 ==> |s| >= 2
  {
    if n < 10 then [Digit(n)] else NatToString(n / 10) + [Digit(n % 10)]
  }

  /** Different numbers are written differently. */
  lemma {:induction false} NatToStringInjective(a: nat, b: nat)
    requires NatToString(a) == NatToString(b)
    ensures a == b
    decreases a
  {
    if a < 10 && b < 10 {
      assert Digit(a) == NatToString(a)[0] == NatToString(b)[0] == Digit(b);
    } else if a >= 10 && b >= 10 {
      var sa, sb := NatToString(a), NatToString(b);
      assert sa[|sa| - 1] == Digit(a % 10) && sb[|sb| - 1] == Digit(b % 10);
      assert a % 10 == b % 10;
      assert sa[..|sa| - 1] == NatToString(a / 10) && sb[..|sb| - 1] == NatToString(b / 10);
      NatToStringInjective(a / 10, b / 10);
    }
  }

  /** The id a new pedestrian gets from the counter. */
  function PedestrianId(n: nat): (id: string)
    ensures |id| >= 12 && id[..11] == "pedestrian_"
  {
    "pedestrian_" + NatToString(n)
  }

  /** Different counter values give different pedestrian ids. */
  lemma {:induction false} PedestrianIdInjective(a: nat, b: nat)
    requires PedestrianId(a) == PedestrianId(b)
    ensures a == b
  {
    var prefix := "pedestrian_";
    assert NatToString(a) == PedestrianId(a)[|prefix|..];
    assert NatToString(b) == PedestrianId(b)[|prefix|..];
    NatToStringInjective(a, b);
  }

  /** The overlap `itemIdentification` computes between a tracked object's box and a new box. */
  function BoxOverlap(tracked: Rect, box: Rect): (area: int)
    ensures area >= 0
  {
    OverlapArea(Point(tracked.x, tracked.y), Point(tracked.x + tracked.w, tracked.y + tracked.h),
      Point(box.x, box.y), Point(box.x + box.w, box.y + box.h))
  }

  /** `itemIdentification(new_object, all_objects)`: the first object in list order whose box
      overlaps the new object's box, or nothing when none does. */
  method ItemIdentification(newObject: Pedestrian, allObjects: seq<Pedestrian>) returns (found: Option<Pedestrian>)
    ensures found.None? <==>
      forall k :: 0 <= k < |allObjects| ==> BoxOverlap(allObjects[k].contour, newObject.contour) == 0
    ensures found.Some? ==> exists k :: (0 <= k < |allObjects| && allObjects[k] == found.value &&
      BoxOverlap(allObjects[k].contour, newObject.contour) > 0 &&
      forall j :: 0 <= j < k ==> BoxOverlap(allObjects[j].contour, newObject.contour) == 0)
  {
    var i := 0;
    while i < |allObjects|
      invariant i <= |allObjects|
      invariant forall j :: 0 <= j < i ==> BoxOverlap(allObjects[j].contour, newObject.contour) == 0
    {
      var testObject := allObjects[i];
      var intersection := BoxOverlap(testObject.contour, newObject.contour);
      if intersection > 0 {
        return Some(testObject);
      }
      i := i + 1;
    }
    return None;
  }

  // ---------------------------------------------------------------------------------------
  // The camera loop's state

  /** The keys of `cars`, in the dictionary's order. */
  const CarNames: seq<string> := ["green-car", "orange-car"]

  class Tracker {
    /** `cars`: the two cars, by name. */
    const cars: map<string, Vehicle>
    /** `control_queue`. */
    const control: ControlQueue
    /** `pedestrian_counter`. */
    var pedestrianCounter: nat
    /** `current_pedestrians`: every pedestrian seen so far, in order of first sighting. */
    var currentPedestrians: seq<Pedestrian>

    /** The two cars are distinct and carry their keys as ids; the queue is well formed and
        holds only these cars and tracked pedestrians; pedestrian ids are numbered in order of
        first sighting; and no car's visibility counter is past 1. */
    predicate Valid()
      reads this, control, cars.Values
    {
      cars.Keys == {"green-car", "orange-car"} &&
      cars["green-car"] != cars["orange-car"] &&
      (forall n :: n in cars ==> cars[n].id == n && cars[n].timeSinceVisible <= 1) &&
      control.Valid() &&
      (forall e :: e in control.queue && e.Car? ==> e.v in cars.Values) &&
      (forall e :: e in control.queue && e.Walker? ==> e.p in currentPedestrians) &&
      pedestrianCounter == |currentPedestrians| &&
      forall k :: 0 <= k < |currentPedestrians| ==> currentPedestrians[k].id == PedestrianId(k)
    }

    /** Tracked pedestrians have distinct ids, and so are distinct objects. */
    lemma DistinctPedestrians()
      requires Valid()
      ensures Distinct(currentPedestrians)
      ensures forall j, k :: 0 <= j < k < |currentPedestrians| ==>
        currentPedestrians[j].id != currentPedestrians[k].id
    {
      forall j, k | 0 <= j < k < |currentPedestrians|
        ensures currentPedestrians[j].id != currentPedestrians[k].id
      {
        if PedestrianId(j) == PedestrianId(k) {
          PedestrianIdInjective(j, k);
        }
      }
    }

    /** The start of the program: both cars as the `Vehicle` constructor makes them, an empty
        queue, and no pedestrian seen. */
    constructor ()
      ensures Valid()
      ensures fresh(control) && control.queue == [] && control.startedPedestrians == []
      ensures currentPedestrians == [] && pedestrianCounter == 0
      ensures cars["green-car"].color == [201, 197, 134] && cars["orange-car"].color == [208, 162, 64]
      ensures forall n :: n in cars ==> cars[n].Record() == InitialRecord
      ensures control.crossingLanes == Closures(false, false, false, false) && control.turning == None
    {
      var green := new Vehicle("green-car", [201, 197, 134]);
      var orange := new Vehicle("orange-car", [208, 162, 64]);
      cars := map["green-car" := green, "orange-car" := orange];
      control := new ControlQueue();
      pedestrianCounter := 0;
      currentPedestrians := [];
    }

    /** The start-of-frame update of one car: a car seen since the last frame starts counting,
        any other is marked invisible. */
    static method TickCar(car: Vehicle)
      modifies car
      ensures car.Record() == Tick(old(car.Record()))
    {
      if car.timeSinceVisible > 0 {
        car.isVisible := false;
        car.timeSinceVisible := 0;
      } else {
        car.timeSinceVisible := car.timeSinceVisible + 1;
      }
    }

    /** The start-of-frame loop over `cars`: every car's counter ticks. */
    method TickVisibility()
      requires Valid()
      modifies cars.Values
      ensures Valid()
      ensures forall n :: n in cars ==> cars[n].Record() == Tick(old(cars[n].Record()))
    {
      ghost var rs := [cars[CarNames[0]].Record(), cars[CarNames[1]].Record()];
      for i := 0 to |CarNames|
        invariant forall k :: 0 <= k < i ==> cars[CarNames[k]].Record() == Tick(rs[k])
        invariant forall k :: i <= k < |CarNames| ==> cars[CarNames[k]].Record() == rs[k]
      {
        TickCar(cars[CarNames[i]]);
      }
      assert forall n :: n in cars ==> n == CarNames[0] || n == CarNames[1];
    }

    /** The search of the queue for a vehicle with the detected name. */
    method VehicleInQueue(name: string) returns (vehicleInQueue: bool)
      ensures vehicleInQueue <==> exists e :: e in control.queue && e.Car? && e.v.id == name
    {
      vehicleInQueue := false;
      for i := 0 to |control.queue|
        invariant vehicleInQueue <==> exists k :: 0 <= k < i && control.queue[k].Car? && control.queue[k].v.id == name
      {
        var entry := control.queue[i];
        if entry.Car? && entry.v.id == name {
          vehicleInQueue := true;
        }
      }
    }

    /** Admission of a detected car: an identified car that is not yet queued joins the queue,
        the green car to turn right and any other to turn left. */
    method AdmitVehicle(name: string)
      requires Valid() && (name == "Unidentified" || name in cars)
      modifies control`queue, if name in cars then {cars[name]} else {}
      ensures Valid()
      ensures var enqueue := name != "Unidentified" &&
          !exists e :: e in old(control.queue) && e.Car? && e.v.id == name;
        control.queue == (if enqueue then old(control.queue) + [Car(cars[name])] else old(control.queue)) &&
        (enqueue ==>
          cars[name].Record() == old(cars[name].Record()).(direction := if name == "green-car" then RightTurn else LeftTurn))
      ensures name in cars ==> cars[name].Record().(direction := old(cars[name].direction)) == old(cars[name].Record())
      ensures (name in cars && exists e :: e in old(control.queue) && e.Car? && e.v.id == name) ==>
        cars[name].Record() == old(cars[name].Record())
    {
      var vehicleInQueue := VehicleInQueue(name);
      if !vehicleInQueue && name != "Unidentified" {
        if name == "green-car" {
          control.AddCar(cars[name], RightTurn);
        } else {
          control.AddCar(cars[name], LeftTurn);
        }
      }
    }

    /** One pass of the lane loop without the car update: a corridor the box touches whose
        overlap beats the best so far becomes the choice. The containment test in front of the
        overlap only skips corridors whose overlap is 0. */
    static method ConsiderLane(box: Rect, lane: Corridor, area: int, currentLane: LaneFix)
      returns (area': int, currentLane': LaneFix)
      requires area >= 0
      ensures Score(box, lane) > area ==> area' == Score(box, lane) && currentLane' == At(lane.name)
      ensures Score(box, lane) <= area ==> area' == area && currentLane' == currentLane
    {
      area', currentLane' := area, currentLane;
      ScoreNeedsContact(box, lane);
      var laneX := lane.corner.x;
      var laneY := lane.corner.y;
      var laneW := lane.farCorner.x - laneX;
      var laneH := lane.farCorner.y - laneY;
      if box.x + box.w >= laneX && box.x <= laneX + laneW && box.y + box.h >= laneY && box.y <= laneY + laneH {
        var newIntersection := OverlapArea(Point(box.x, box.y), Point(box.x + box.w, box.y + box.h),
          lane.corner, lane.farCorner);
        if newIntersection > area {
          area' := newIntersection;
          currentLane' := At(lane.name);
        }
      }
    }

    /** The lane choice of one pass of the lane loop, with the running state it keeps. */
    static method ChooseStep(box: Rect, k: nat, ghost best: int, area: int, currentLane: LaneFix)
      returns (ghost best': int, area': int, currentLane': LaneFix)
      requires k < |Lanes| && Leading(box, Lanes, k, best, area, currentLane)
      ensures Score(box, Lanes[k]) > area ==> area' == Score(box, Lanes[k]) && currentLane' == At(Lanes[k].name)
      ensures Score(box, Lanes[k]) <= area ==> area' == area && currentLane' == currentLane
      ensures Leading(box, Lanes, k + 1, best', area', currentLane')
      ensures Picks(box, Lanes[..k], currentLane)
    {
      LeadingStep(box, Lanes, k, best, area, currentLane);
      best' := if Score(box, Lanes[k]) > area then k else best;
      area', currentLane' := ConsiderLane(box, Lanes[k], area, currentLane);
    }

    /** The car update inside the lane loop: new box, the lane fix moves to the previous lane
        fix, the running choice becomes the lane fix, and the visibility update. */
    static method Place(car: Vehicle, box: Rect, fix: LaneFix)
      modifies car
      ensures car.Record() == Sighting(old(car.Record()), box, fix)
    {
      car.contour := box;
      car.previousLane := car.lane;
      car.lane := fix;
      if car.timeSinceVisible < 51 {
        car.isVisible := true;
        car.timeSinceVisible := 0;
      }
    }

    /** The lane loop for one car box: the best corridor so far is kept in `current_lane`, and,
        because the car update sits inside that loop, the identified car is updated after every
        corridor. Its lane fix ends as the choice among all eight corridors and its previous lane
        fix as the choice among the first seven. */
    method LocateVehicle(name: string, box: Rect) returns (currentLane: LaneFix)
      requires Valid() && (name == "Unidentified" || name in cars)
      modifies if name != "Unidentified" then {cars[name]} else {}
      ensures Valid()
      ensures Picks(box, Lanes, currentLane)
      ensures name != "Unidentified" ==>
        cars[name].Record() == Sighting(old(cars[name].Record()), box, currentLane).(previousLane := cars[name].previousLane) &&
        Picks(box, Lanes[..7], cars[name].previousLane)
    {
      var area := 0;
      currentLane := Undefined;
      ghost var best := -1;
      ghost var r0 := if name in cars then cars[name].Record() else VehicleRecord([], Straight, box, Undefined,
        Undefined, false, false, 0, None, 0.0, 0.0, 0.0, 0.0, 0.0, false);
      ghost var prevLane := r0.lane;
      LeadingStart(box, Lanes);
      for k := 0 to |Lanes|
        invariant Leading(box, Lanes, k, best, area, currentLane)
        invariant k >= 2 ==> Picks(box, Lanes[..k - 1], prevLane)
        invariant k <= 1 ==> prevLane == r0.lane
        invariant name != "Unidentified" && k == 0 ==> cars[name].Record() == r0
        invariant name != "Unidentified" && k >= 1 ==>
          cars[name].Record() == Sighting(r0, box, currentLane).(previousLane := prevLane)
      {
        ghost var before := currentLane;
        best, area, currentLane := ChooseStep(box, k, best, area, currentLane);
        if name != "Unidentified" {
          ghost var r := cars[name].Record();
          Place(cars[name], box, currentLane);
          if k > 0 {
            SightingAgain(r0, box, before, prevLane, currentLane);
          } else {
            ghost var x := Sighting(r0, box, currentLane);
            assert x.previousLane == r0.lane;
            assert x.(previousLane := x.previousLane) == x;
          }
        }
        if k > 0 {
          assert Picks(box, Lanes[..(k + 1) - 1], before);
          prevLane := before;
        }
      }
      assert Lanes[..|Lanes|] == Lanes && |Lanes| - 1 == 7;
      LeadingPicks(box, Lanes, |Lanes|, best, area, currentLane);
    }

    /** The pedestrian branch: a box overlapping a tracked pedestrian moves that pedestrian's
        box; any other box becomes a new pedestrian, numbered by the counter, that is tracked
        and joins the queue to cross at the bottom side. */
    method TrackPedestrian(box: Rect) returns (pedestrian: Pedestrian, isNew: bool)
      requires Valid()
      modifies this`currentPedestrians, this`pedestrianCounter, control`queue, (set p | p in currentPedestrians)`contour
      ensures Valid()
      ensures pedestrian.contour == box
      ensures isNew <==> forall k :: 0 <= k < |old(currentPedestrians)| ==>
        BoxOverlap(old(currentPedestrians[k].contour), box) == 0
      ensures !isNew ==>
        (exists k :: 0 <= k < |old(currentPedestrians)| && old(currentPedestrians[k]) == pedestrian &&
          BoxOverlap(old(currentPedestrians[k].contour), box) > 0 &&
          forall j :: 0 <= j < k ==> BoxOverlap(old(currentPedestrians[j].contour), box) == 0) &&
        currentPedestrians == old(currentPedestrians) && pedestrianCounter == old(pedestrianCounter) &&
        control.queue == old(control.queue)
      ensures isNew ==> (fresh(pedestrian) && pedestrian.id == PedestrianId(old(pedestrianCounter)) &&
        pedestrian.direction == Bottom &&
        currentPedestrians == old(currentPedestrians) + [pedestrian] &&
        pedestrianCounter == old(pedestrianCounter) + 1 &&
        control.queue == old(control.queue) + [Walker(pedestrian)])
      ensures !isNew ==> pedestrian.direction == old(pedestrian.direction) && pedestrian.startTime == old(pedestrian.startTime)
      ensures forall p :: p in old(currentPedestrians) && p != pedestrian ==> unchanged(p)
    {
      var newPedestrian := new Pedestrian("pedestrian_" + NatToString(pedestrianCounter));
      newPedestrian.contour := box;
      var identified := ItemIdentification(newPedestrian, currentPedestrians);
      if identified.Some? {
        identified.value.contour := newPedestrian.contour;
        pedestrian, isNew := identified.value, false;
      } else {
        assert newPedestrian !in currentPedestrians by {
          forall k | 0 <= k < |currentPedestrians| ensures currentPedestrians[k].id != newPedestrian.id {
            if PedestrianId(k) == PedestrianId(pedestrianCounter) {
              PedestrianIdInjective(k, pedestrianCounter);
            }
          }
        }
        Enroll(newPedestrian);
        pedestrian, isNew := newPedestrian, true;
      }
    }

    /** A pedestrian seen for the first time is tracked, advances the counter and joins the
        queue to cross at the bottom side. */
    method Enroll(pedestrian: Pedestrian)
      requires Valid() && pedestrian.id == PedestrianId(pedestrianCounter)
      requires pedestrian !in currentPedestrians && pedestrian !in control.startedPedestrians
      requires Walker(pedestrian) !in control.queue
      modifies this`currentPedestrians, this`pedestrianCounter, control`queue, pedestrian`direction
      ensures Valid()
      ensures pedestrian.direction == Bottom
      ensures currentPedestrians == old(currentPedestrians) + [pedestrian]
      ensures pedestrianCounter == old(pedestrianCounter) + 1
      ensures control.queue == old(control.queue) + [Walker(pedestrian)]
    {
      currentPedestrians := currentPedestrians + [pedestrian];
      pedestrianCounter := pedestrianCounter + 1;
      control.AddPedestrian(pedestrian, Bottom);
    }

    /** One frame of the camera loop: the visibility counters tick, the scheduler runs, and
        then each box is handled in order. Every car detected in the frame ends it visible. */
    method Frame(detections: seq<Detection>, now: real)
      requires Valid()
      requires forall k :: 0 <= k < |detections| && detections[k].CarBox? ==>
        detections[k].name == "Unidentified" || detections[k].name in cars
      modifies this, control, cars.Values, set p | p in currentPedestrians
      ensures Valid()
      ensures forall k :: 0 <= k < |detections| && detections[k].CarBox? && detections[k].name in cars ==>
        cars[detections[k].name].isVisible
    {
      TickVisibility();
      ControlStep(now);
      HandleDetections(detections);
    }

    /** The loop over a frame's boxes, in the detector's order: a car box admits and locates
        its car, a pedestrian box is tracked. */
    method HandleDetections(detections: seq<Detection>)
      requires Valid()
      requires forall k :: 0 <= k < |detections| && detections[k].CarBox? ==>
        detections[k].name == "Unidentified" || detections[k].name in cars
      modifies this`currentPedestrians, this`pedestrianCounter, control`queue, cars.Values,
        set p | p in currentPedestrians
      ensures Valid()
      ensures forall k :: 0 <= k < |detections| && detections[k].CarBox? && detections[k].name in cars ==>
        cars[detections[k].name].isVisible
    {
      for k := 0 to |detections|
        invariant Valid()
        invariant forall j :: 0 <= j < k && detections[j].CarBox? && detections[j].name in cars ==>
          cars[detections[j].name].isVisible
        invariant forall p :: p in currentPedestrians ==> p in old(currentPedestrians) || fresh(p)
      {
        HandleDetection(detections[k]);
      }
    }

    /** The body of the loop over a frame's boxes. A car box admits its car and runs the lane
        loop; a pedestrian box is tracked. No car becomes invisible, and a detected car becomes
        visible. */
    method HandleDetection(detection: Detection)
      requires Valid()
      requires detection.CarBox? ==> detection.name == "Unidentified" || detection.name in cars
      modifies this`currentPedestrians, this`pedestrianCounter, control`queue, cars.Values,
        set p | p in currentPedestrians
      ensures Valid()
      ensures forall n :: n in cars && old(cars[n].isVisible) ==> cars[n].isVisible
      ensures detection.CarBox? && detection.name in cars ==> cars[detection.name].isVisible
      ensures forall p :: p in currentPedestrians ==> p in old(currentPedestrians) || fresh(p)
    {
      match detection
      case CarBox(box, name) =>
        HandleCar(name, box);
      case PersonBox(box) =>
        var pedestrian, isNew := TrackPedestrian(box);
    }

    /** The car branch of the loop over a frame's boxes: admission, then the lane loop. An
        identified car that was not queued joins the queue with its maneuver; the car, when
        identified, ends visible in its box with the lane fixes of the lane loop. */
    method HandleCar(name: string, box: Rect)
      requires Valid() && (name == "Unidentified" || name in cars)
      modifies control`queue, if name in cars then {cars[name]} else {}
      ensures Valid()
      ensures var enqueue := name != "Unidentified" &&
          !exists e :: e in old(control.queue) && e.Car? && e.v.id == name;
        control.queue == (if enqueue then old(control.queue) + [Car(cars[name])] else old(control.queue)) &&
        (name in cars ==> (cars[name].direction ==
          if enqueue then (if name == "green-car" then RightTurn else LeftTurn) else old(cars[name].direction)))
      ensures name in cars ==> cars[name].isVisible && Located(old(cars[name].Record()), cars[name].Record(), box)
    {
      AdmitVehicle(name);
      var currentLane := LocateVehicle(name, box);
    }

    /** `control_queue.control(stop_lines)` inside the frame: the scheduler leaves every car's
        visibility counter as it was, and keeps the queue within the tracked cars and
        pedestrians. */
    method ControlStep(now: real)
      requires Valid()
      modifies control, cars.Values, set p | p in currentPedestrians
      ensures Valid()
      ensures forall n :: n in cars ==> cars[n].timeSinceVisible == old(cars[n].timeSinceVisible)
    {
      ghost var q := control.queue;
      ghost var w := WaitingPedestrians(q);
      assert forall p :: p in w ==> Walker(p) in q;
      control.Control(StopLines, now);
      forall n | n in cars ensures cars[n].timeSinceVisible == old(cars[n].timeSinceVisible) {
        var v := cars[n];
        if Car(v) in q {
          ArbitrateFrame(old(v.Record()), control.crossingLanes, StopLines);
        }
      }
    }
  }
}
