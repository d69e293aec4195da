/**
 * `ControlQueue` (queuing.py): the per-tick scheduler. It holds the ordered queue of vehicles and
 * pedestrians, the closure flag of each side's crosswalk and the pedestrians whose crossing has
 * started. Each tick it first lets the pedestrians at the head of the queue cross (closing their
 * side and stamping the time), reopens the sides of pedestrians who started at least 15 seconds
 * ago, and then runs the per-car decision of `Arbitration` over the queue, evicting the cars
 * that have completed their turn and left the camera's view.
 */
module Queuing {
  import opened Options
  import opened Geometry
  import opened Layout
  import opened Vehicles
  import opened Pedestrians
  import opened Arbitration
  import opened Sweep

  /** A queue entry: the source's list holds `Vehicle` and `Pedestrian` objects side by side. */
  datatype Entry = Car(v: Vehicle) | Walker(p: Pedestrian)

  /** The pedestrians standing at the head of the queue, in order, up to the first car. */
  function WaitingPedestrians(q: seq<Entry>): (ps: seq<Pedestrian>)
    ensures |ps| <= |q|
    ensures forall k :: 0 <= k < |ps| ==> q[k] == Walker(ps[k])
    ensures |ps| < |q| ==> q[|ps|].Car?
  {
    if q != [] && q[0].Walker? then [q[0].p] + WaitingPedestrians(q[1..]) else []
  }

  /** The vehicles of the queue. */
  function CarsIn(q: seq<Entry>): set<Vehicle> {
    set e | e in q && e.Car? :: e.v
  }

  /** The entries the loop body of `control_cars` removes from the queue. */
  function Departures(q: seq<Entry>, crossing: map<Side, bool>, stopLines: seq<Segment>): set<Entry>
    requires AllSides(crossing)
    reads CarsIn(q)
  {
    set e | e in q && e.Car? && Departs(e.v.Record(), crossing, stopLines)
  }

  /** The started pedestrians whose crossing began at least 15 seconds before `now`. */
  function Expired(ps: seq<Pedestrian>, now: real): (done: set<Pedestrian>)
    reads set p | p in ps
    ensures done <= set p | p in ps
    ensures forall p :: p in ps && p.startTime + 15.0 <= now ==> p in done
  {
    set p | p in ps && now - p.startTime >= 15.0
  }

  /** A pedestrian whose time is up stays so: later ticks only add to the expired set. */
  lemma ExpiredGrows(ps: seq<Pedestrian>, before: real, after: real)
    requires before <= after
    ensures Expired(ps, before) <= Expired(ps, after)
  {
  }

  /** Every car of the queue stands behind the waiting pedestrians. */
  lemma CarsFollowWaiting(q: seq<Entry>)
    ensures forall e :: e in q && e.Car? ==> e in q[|WaitingPedestrians(q)|..]
  {
    var w := WaitingPedestrians(q);
    forall e | e in q && e.Car? ensures e in q[|w|..] {
      var i :| 0 <= i < |q| && q[i] == e;
      assert q[i] == q[|w|..][i - |w|];
    }
  }

  /** Walker entries never depart in `control_cars`, so every pedestrian in the queue is still
      there after the pass. */
  lemma {:induction false} ControlCarsKeepsPedestrians(q: seq<Entry>, crossing: map<Side, bool>, stopLines: seq<Segment>)
    requires AllSides(crossing) && Distinct(q)
    ensures forall e :: e in q && e.Walker? ==> e in Swept(q, Departures(q, crossing, stopLines))
  {
    var d := Departures(q, crossing, stopLines);
    SweptKeepsOrder(q, d);
    WithoutMembers(q, Visited(q, d) * d);
  }

  /** The car right after an evicted one is not looked at in that pass: it keeps its fields
      and its place whatever its own decision would have been. */
  lemma {:induction false} EvictionSkipsNext(q: seq<Entry>, crossing: map<Side, bool>, stopLines: seq<Segment>, k: nat)
    requires AllSides(crossing) && Distinct(q) && k + 1 < |q|
    requires q[k] in Visited(q, Departures(q, crossing, stopLines))
    requires q[k].Car? && Departs(q[k].v.Record(), crossing, stopLines)
    ensures q[k + 1] !in Visited(q, Departures(q, crossing, stopLines))
    ensures q[k + 1] in Swept(q, Departures(q, crossing, stopLines))
    ensures q[k] !in Swept(q, Departures(q, crossing, stopLines))
  {
    SkipAfterRemoval(q, Departures(q, crossing, stopLines), k);
  }

  /** The closures `control_pedestrians` leaves: a side is closed when it was closed before or
      a pedestrian in `closers` closed it, and no pedestrian in `openers` reopened it. */
  ghost predicate PedestrianClosures(crossing: map<Side, bool>, before: map<Side, bool>,
                                     closers: seq<Pedestrian>, openers: set<Pedestrian>)
    requires AllSides(before)
    reads (set p | p in closers), openers
  {
    forall side :: (side in crossing &&
      (crossing[side] <==>
        ((before[side] || exists p :: p in closers && p.direction == side) &&
         !exists p :: p in openers && p.direction == side)))
  }

  class ControlQueue {
    var queue: seq<Entry>
    var crossingLanes: map<Side, bool>
    var startedPedestrians: seq<Pedestrian>
    /** `self.turning`: the source's reset of a car's turning flag lands on the queue object; it
        does not exist until `control_cars` first writes it, and nothing reads it. */
    var turning: Option<bool>

    /** Every side has a closure flag, no entry is queued twice, no pedestrian has started twice,
        and a queued pedestrian has not started. */
    predicate Valid()
      reads this
    {
      AllSides(crossingLanes) && Distinct(queue) && Distinct(startedPedestrians) &&
      forall p :: Walker(p) in queue ==> p !in startedPedestrians
    }

    /** `ControlQueue()`: empty queue, every crosswalk free, nobody crossing. */
    constructor ()
      ensures Valid()
      ensures queue == [] && startedPedestrians == [] && turning == None
      ensures crossingLanes == Closures(false, false, false, false)
    {
      queue := [];
      crossingLanes := Closures(false, false, false, false);
      startedPedestrians := [];
      turning := None;
    }

    /** `addCar(car, direction)`: records the maneuver and appends the car. */
    method AddCar(car: Vehicle, direction: Maneuver)
      modifies this`queue, car
      ensures car.Record() == old(car.Record()).(direction := direction)
      ensures queue == old(queue) + [Car(car)]
      ensures old(Valid()) && Car(car) !in old(queue) ==> Valid()
    {
      car.direction := direction;
      queue := queue + [Car(car)];
    }

    /** `addPedestrian(pedestrian, direction)`: records the side to close and appends the
        pedestrian. */
    method AddPedestrian(pedestrian: Pedestrian, direction: Side)
      modifies this`queue, pedestrian`direction
      ensures pedestrian.direction == direction
      ensures queue == old(queue) + [Walker(pedestrian)]
      ensures old(Valid()) && Walker(pedestrian) !in old(queue) && pedestrian !in startedPedestrians ==> Valid()
    {
      pedestrian.direction := direction;
      queue := queue + [Walker(pedestrian)];
    }

    /** `remove()`: drops the head of the queue; an empty queue stays empty. */
    method Remove()
      modifies this`queue
      ensures old(queue) != [] ==> queue == old(queue)[1..]
      ensures old(queue) == [] ==> queue == []
      ensures old(Valid()) ==> Valid()
    {
      if |queue| > 0 {
        DistinctTail(queue, 1);
        queue := queue[1..];
      }
    }

    /** `pedestrian_crossing(pedestrian)`: closes the pedestrian's side, stamps the start of the
        crossing and records the pedestrian as started. */
    method PedestrianCrossing(pedestrian: Pedestrian, now: real)
      modifies this`crossingLanes, this`startedPedestrians, pedestrian`startTime
      ensures crossingLanes == old(crossingLanes)[pedestrian.direction := true]
      ensures pedestrian.startTime == now
      ensures startedPedestrians == old(startedPedestrians) + [pedestrian]
    {
      crossingLanes := crossingLanes[pedestrian.direction := true];
      pedestrian.startTime := now;
      startedPedestrians := startedPedestrians + [pedestrian];
    }

    /** One turn of the `while` loop of `control_pedestrians`: the pedestrian at the head of
        the queue starts crossing and leaves the queue. */
    method StartFirst(now: real)
      requires Valid() && queue != [] && queue[0].Walker?
      modifies this`queue, this`crossingLanes, this`startedPedestrians, queue[0].p`startTime
      ensures Valid()
      ensures var p := old(queue)[0].p;
        queue == old(queue)[1..] &&
        crossingLanes == old(crossingLanes)[p.direction := true] &&
        startedPedestrians == old(startedPedestrians) + [p] &&
        p.startTime == now
    {
      var pedestrian := queue[0].p;
      PedestrianCrossing(pedestrian, now);
      DistinctTail(queue, 1);
      queue := queue[1..];
    }

    /** The `while` loop of `control_pedestrians`: every pedestrian at the head of the queue
        starts crossing and leaves the queue, until the queue is empty or starts with a car. */
    method AdmitPedestrians(now: real)
      requires Valid()
      modifies this`queue, this`crossingLanes, this`startedPedestrians, (set p | p in WaitingPedestrians(queue))`startTime
      ensures Valid()
      ensures var w := old(WaitingPedestrians(queue));
        queue == old(queue)[|w|..] &&
        startedPedestrians == old(startedPedestrians) + w &&
        (forall p :: p in w ==> p.startTime == now && p.direction == old(p.direction))
      ensures queue == [] || queue[0].Car?
      ensures var w := old(WaitingPedestrians(queue));
        forall side :: (side in crossingLanes &&
          (crossingLanes[side] <==> (old(crossingLanes)[side] || exists p :: p in w && p.direction == side)))
    {
      ghost var q0 := queue;
      ghost var w := WaitingPedestrians(queue);
      ghost var n := 0;
      while |queue| > 0 && queue[0].Walker?
        invariant n <= |w|
        invariant queue == q0[n..]
        invariant startedPedestrians == old(startedPedestrians) + w[..n]
        invariant forall p :: p in w ==> p.direction == old(p.direction)
        invariant forall p :: p in w[..n] ==> p.startTime == now
        invariant forall side :: (side in crossingLanes &&
          (crossingLanes[side] <==> (old(crossingLanes)[side] || exists p :: p in w[..n] && p.direction == side)))
        invariant Valid()
        decreases |queue|
      {
        assert queue[0] == q0[n] == Walker(w[n]);
        var pedestrian := queue[0].p;
        assert w[..n + 1] == w[..n] + [pedestrian];
        ghost var before := crossingLanes;
        StartFirst(now);
        forall side ensures side in crossingLanes &&
          (crossingLanes[side] <==> (old(crossingLanes)[side] || exists p :: p in w[..n + 1] && p.direction == side))
        {
          if side == pedestrian.direction {
            assert pedestrian in w[..n + 1];
          } else {
            assert crossingLanes[side] == before[side];
          }
        }
        n := n + 1;
      }
      assert n == |w|;
      assert w[..n] == w;
    }

    /** The `for` loop of `control_pedestrians`: each started pedestrian the loop looks at whose
        crossing began at least 15 seconds ago reopens its side and is removed from the list,
        which makes the loop skip the pedestrian after it. */
    method ReopenLanes(now: real)
      requires Valid()
      modifies this`crossingLanes, this`startedPedestrians
      ensures Valid()
      ensures var s0 := old(startedPedestrians); var d := Expired(s0, now);
        startedPedestrians == Swept(s0, d) &&
        forall side :: (side in crossingLanes &&
          (crossingLanes[side] <==>
            (old(crossingLanes)[side] && !exists p :: p in Visited(s0, d) && p in d && p.direction == side)))
    {
      ghost var s0 := startedPedestrians;
      ghost var d := Expired(s0, now);
      ghost var vis: set<Pedestrian> := {};
      var i := 0;
      SweepStart(s0, d);
      while i < |startedPedestrians|
        invariant Sweeping(s0, startedPedestrians, i, d, vis)
        invariant forall side :: (side in crossingLanes &&
          (crossingLanes[side] <==>
            (old(crossingLanes)[side] && !exists p :: p in vis && p in d && p.direction == side)))
        invariant Valid()
        decreases |startedPedestrians| - i
      {
        var started := startedPedestrians[i];
        ghost var next := if started in d then startedPedestrians[..i] + startedPedestrians[i + 1..] else startedPedestrians;
        SweepAdvance(s0, startedPedestrians, next, i, d, vis);
        assert started in d <==> now - started.startTime >= 15.0;
        ghost var before := crossingLanes;
        if now - started.startTime >= 15.0 {
          crossingLanes := crossingLanes[started.direction := false];
          RemoveFirstAt(startedPedestrians, i);
          startedPedestrians := RemoveFirst(startedPedestrians, started);
        }
        forall side ensures side in crossingLanes &&
          (crossingLanes[side] <==>
            (old(crossingLanes)[side] && !exists p :: p in vis + {started} && p in d && p.direction == side))
        {
          if started in d && side == started.direction {
            assert started in vis + {started};
          } else {
            assert crossingLanes[side] == before[side];
            if exists p :: p in vis + {started} && p in d && p.direction == side {
              var p :| p in vis + {started} && p in d && p.direction == side;
              assert p in vis;
            }
          }
        }
        vis := vis + {started};
        i := i + 1;
      }
      SweepDone(s0, startedPedestrians, i, d, vis);
    }

    /** `control_pedestrians()`: admission, then reopening. The started list ends as the
        reopening pass over the old list followed by the admitted pedestrians, and a side is
        closed when it was closed or an admitted pedestrian closed it, and no expired pedestrian
        the pass looked at reopened it. A pedestrian admitted on this tick has a start time of
        `now` and so is never reopened on the same tick. */
    method ControlPedestrians(now: real)
      requires Valid()
      modifies this`queue, this`crossingLanes, this`startedPedestrians, (set p | p in WaitingPedestrians(queue))`startTime
      ensures Valid()
      ensures queue == [] || queue[0].Car?
      ensures var w := old(WaitingPedestrians(queue));
        queue == old(queue)[|w|..] &&
        forall p :: p in w ==> p.startTime == now && p in startedPedestrians
      ensures var w := old(WaitingPedestrians(queue)); var s1 := old(startedPedestrians) + w;
        var d := Expired(s1, now);
        startedPedestrians == Swept(s1, d) &&
        PedestrianClosures(crossingLanes, old(crossingLanes), w, Visited(s1, d) * d)
    {
      ghost var w := WaitingPedestrians(queue);
      AdmitPedestrians(now);
      ghost var s1 := startedPedestrians;
      ReopenLanes(now);
      forall p | p in w ensures p in startedPedestrians {
        assert p in s1 && p !in Expired(s1, now);
        SweepKeeps(s1, Expired(s1, now), p);
      }
    }
  
    /** The turn branch of `control_cars`: full power for the car's maneuver. */
    static method PowerTurn(car: Vehicle)
      modifies car
      ensures car.Record() == old(car.Record()).(motorSpeeds := MotorPower(ManeuverName(car.direction), 100.0))
    {
      if car.direction == Straight {
        car.DirectionToMotorPower("forward", 100.0);
      }
      if car.direction == RightTurn {
        car.DirectionToMotorPower("right", 100.0);
      }
      if car.direction == LeftTurn {
        car.DirectionToMotorPower("left", 100.0);
      }
    }

    /** The arrival branch of `control_cars`: the turn is complete; the car keeps cruising while
        the camera sees it, and otherwise is stopped and reported for eviction. */
    static method CompleteTurn(car: Vehicle) returns (evict: bool)
      modifies car
      ensures evict == !old(car.isVisible)
      ensures car.Record() == old(car.Record()).(completedTurn := true,
        motorSpeeds := MotorPower("forward", if old(car.isVisible) then 55.0 else 0.0))
    {
      evict := false;
      car.completedTurn := true;
      if car.isVisible {
        car.DirectionToMotorPower("forward", 55.0);
      } else {
        car.DirectionToMotorPower("forward", 0.0);
        evict := true;
      }
    }

    /** The destination assignment of `control_cars`: a car without a destination lane gets
        the turn table's entry for its side and maneuver. */
    static method AssignStopLane(car: Vehicle, entry: Lane)
      modifies car`stopLane
      ensures car.stopLane == Some(Destination(old(car.Record()), entry))
    {
      if car.stopLane == None {
        car.stopLane := Some(TurnTarget(entry.side, car.direction));
      }
    }

    /** The loop body of `control_cars` for one vehicle, without the eviction and without the
        write to the queue's `turning` attribute, which it reports instead: it updates the car
        as `Arbitrate` says, and tells whether the car leaves the queue and whether the body
        writes `self.turning = False`. */
    static method ArbitrateCar(car: Vehicle, crossing: map<Side, bool>, stopLines: seq<Segment>)
      returns (departs: bool, clears: bool)
      requires AllSides(crossing)
      modifies car
      ensures car.Record() == Arbitrate(old(car.Record()), crossing, stopLines)
      ensures departs == Departs(old(car.Record()), crossing, stopLines)
      ensures clears == ClearsTurning(old(car.Record()), crossing, stopLines)
    {
      ghost var r0 := car.Record();
      departs, clears := false, false;
      if car.lane.At? {
        var entry := car.lane.lane;
        var atStopLine := HitsStopLine(stopLines, car.contour);
        AssignStopLane(car, entry);
        var dest := car.stopLane.value;
        if crossing[entry.side] || crossing[dest.side] {
          car.DirectionToMotorPower("forward", 0.0);
          clears := true;
        } else if atStopLine && entry != dest {
          PowerTurn(car);
          car.turning := true;
        } else if entry == dest {
          departs := CompleteTurn(car);
          clears := true;
        } else {
          car.DirectionToMotorPower("forward", 55.0);
        }
      }
    }

    /** The loop body of `control_cars` at index `i`: a vehicle is updated as `Arbitrate` says
        and removed when it departs, and the queue's `turning` attribute is written on a hold
        or an arrival; a pedestrian is passed over. */
    method ControlEntry(i: nat, stopLines: seq<Segment>) returns (ghost departs: bool, ghost clears: bool)
      requires AllSides(crossingLanes) && i < |queue| && Distinct(queue)
      modifies this`queue, this`turning, if queue[i].Car? then {queue[i].v} else {}
      ensures var e := old(queue[i]);
        departs == (e.Car? && Departs(old(e.v.Record()), crossingLanes, stopLines)) &&
        clears == (e.Car? && ClearsTurning(old(e.v.Record()), crossingLanes, stopLines))
      ensures queue == if departs then old(queue[..i] + queue[i + 1..]) else old(queue)
      ensures turning == if clears then Some(false) else old(turning)
      ensures var e := old(queue[i]);
        e.Car? ==> e.v.Record() == Arbitrate(old(e.v.Record()), crossingLanes, stopLines)
    {
      departs, clears := false, false;
      var entry := queue[i];
      if entry.Car? {
        var car := entry.v;
        var evict, reset := ArbitrateCar(car, crossingLanes, stopLines);
        departs, clears := evict, reset;
        if reset {
          turning := Some(false);
        }
        if evict {
          RemoveFirstAt(queue, i);
          queue := RemoveFirst(queue, entry);
        }
      }
    }

    /** `control_cars(stop_lines)`: one pass over the queue. Every vehicle the pass looks at is
        updated by `Arbitrate`; the departing ones are removed as the pass goes, so the entry
        after each of them is not looked at; pedestrians are passed over. */
    method ControlCars(stopLines: seq<Segment>)
      requires Valid()
      modifies this`queue, this`turning, CarsIn(queue)
      ensures Valid()
      ensures var d := old(Departures(queue, crossingLanes, stopLines));
        queue == Swept(old(queue), d)
      ensures var d := old(Departures(queue, crossingLanes, stopLines));
        forall e :: e in old(queue) && e.Car? ==>
          e.v.Record() == if e in Visited(old(queue), d)
            then Arbitrate(old(e.v.Record()), crossingLanes, stopLines)
            else old(e.v.Record())
      ensures turning == old(turning) || turning == Some(false)
      ensures forall e :: e in queue ==> e in old(queue)
      ensures forall e :: e in old(queue) && e.Car? ==>
        e.v.Record() in {old(e.v.Record()), Arbitrate(old(e.v.Record()), crossingLanes, stopLines)}
    {
      ghost var q0 := queue;
      ghost var d := Departures(queue, crossingLanes, stopLines);
      ghost var vis: set<Entry> := {};
      var i := 0;
      SweepStart(q0, d);
      while i < |queue|
        invariant Sweeping(q0, queue, i, d, vis)
        invariant forall e :: e in vis ==> e in q0
        invariant forall e :: e in vis && e.Car? ==>
          e.v.Record() == Arbitrate(old(e.v.Record()), crossingLanes, stopLines)
        invariant forall e :: e in q0 && e !in vis && e.Car? ==> e.v.Record() == old(e.v.Record())
        invariant turning == old(turning) || turning == Some(false)
        decreases |queue| - i
      {
        var entry := queue[i];
        ghost var next := if entry in d then queue[..i] + queue[i + 1..] else queue;
        SweepAdvance(q0, queue, next, i, d, vis);
        label before:
        ghost var departs, clears := ControlEntry(i, stopLines);
        assert departs <==> entry in d;
        forall e | e in vis + {entry} && e.Car?
          ensures e.v.Record() == Arbitrate(old(e.v.Record()), crossingLanes, stopLines)
        {
          if e != entry {
            assert e.v.Record() == old@before(e.v.Record());
          }
        }
        forall e | e in q0 && e !in vis + {entry} && e.Car?
          ensures e.v.Record() == old(e.v.Record())
        {
          assert e.v.Record() == old@before(e.v.Record());
        }
        vis := vis + {entry};
        i := i + 1;
      }
      SweepDone(q0, queue, i, d, vis);
      VisitedWithin(q0, d);
    }

    /** `control(stop_lines)`: the pedestrians' turn, then the cars'. */
    method Control(stopLines: seq<Segment>, now: real)
      requires Valid()
      modifies this, (set p | p in WaitingPedestrians(queue))`startTime, CarsIn(queue)
      ensures Valid()
      ensures forall e :: e in queue ==> e in old(queue)
      ensures var w := old(WaitingPedestrians(queue));
        forall p :: p in w ==> p.startTime == now && p in startedPedestrians
      ensures var rest := old(queue)[|old(WaitingPedestrians(queue))|..];
        var closed := crossingLanes;
        var d := old(Departures(rest, closed, stopLines));
        queue == Swept(rest, d) &&
        forall e :: e in rest && e.Car? ==>
          e.v.Record() == if e in Visited(rest, d)
            then Arbitrate(old(e.v.Record()), crossingLanes, stopLines)
            else old(e.v.Record())
      ensures forall e :: e in old(queue) && e.Car? ==>
        e.v.Record() in {old(e.v.Record()), Arbitrate(old(e.v.Record()), crossingLanes, stopLines)}
    {
      CarsFollowWaiting(queue);
      ControlPedestrians(now);
      ControlCars(stopLines);
    }
}
}
