/**
 * The decision `control_cars` (queuing.py) makes for one vehicle on one tick, as a function of
 * the vehicle's fields, the lane closures and the stop lines. The decision follows a fixed order
 * of precedence: an untracked car is left alone; otherwise the car is given its destination lane
 * if it has none yet, and then it is held when the crosswalk of its entry side or of its
 * destination side is occupied, turned when it touches a stop line outside its destination
 * lane, completed (and evicted when the camera lost it) once it is in its destination lane,
 * and otherwise sent forward at cruising speed.
 */
module Arbitration {
  import opened Options
  import opened Geometry
  import opened Layout
  import opened Vehicles

  /** `crossing_lanes` has an entry for each of the four sides. */
  predicate AllSides(crossing: map<Side, bool>) {
    forall side: Side :: side in crossing
  }

  /** A `crossing_lanes` dictionary with the given closures. */
  function Closures(top: bool, bottom: bool, left: bool, right: bool): (crossing: map<Side, bool>)
    ensures AllSides(crossing)
    ensures crossing[Top] == top && crossing[Bottom] == bottom
    ensures crossing[Left] == left && crossing[Right] == right
  {
    var crossing := map[Top := top, Bottom := bottom, Left := left, Right := right];
    assert AllSides(crossing) by {
      forall side: Side ensures side in crossing {
        assert side.Top? || side.Bottom? || side.Left? || side.Right?;
      }
    }
    crossing
  }

  /** The destination lane after `stop_lane` is filled in: the one already assigned, or the
      turn table's entry for the side the car is on and its maneuver. */
  function Destination(r: VehicleRecord, entry: Lane): (dest: Lane)
    ensures r.stopLane.None? ==> dest.orientation == Backward && dest.side != entry.side
  {
    if r.stopLane.None? then TurnTarget(entry.side, r.direction) else r.stopLane.value
  }

  /** The branch of `control_cars` a vehicle takes. */
  datatype Decision = Untracked | Hold | Turn | Arrive | Cruise

  function DecisionOf(r: VehicleRecord, crossing: map<Side, bool>, stopLines: seq<Segment>): (d: Decision)
    requires AllSides(crossing)
    ensures d == Untracked <==> r.lane.Undefined?
    ensures d == Turn ==> HitsStopLine(stopLines, r.contour)
  {
    match r.lane
    case Undefined => Untracked
    case At(entry) =>
      var dest := Destination(r, entry);
      if crossing[entry.side] || crossing[dest.side] then Hold
      else if HitsStopLine(stopLines, r.contour) && entry != dest then Turn
      else if entry == dest then Arrive
      else Cruise
  }

  /** The vehicle's fields after the loop body of `control_cars` has run on it. */
  function Arbitrate(r: VehicleRecord, crossing: map<Side, bool>, stopLines: seq<Segment>): (r': VehicleRecord)
    requires AllSides(crossing)
    ensures r.lane.At? ==> r'.stopLane.Some? && |r'.motorSpeeds| == 4
    ensures r'.lane == r.lane && r'.contour == r.contour && r'.isVisible == r.isVisible && r'.direction == r.direction
  {
    match r.lane
    case Undefined => r
    case At(entry) =>
      var fixed := r.(stopLane := Some(Destination(r, entry)));
      match DecisionOf(r, crossing, stopLines)
      case Hold => fixed.(motorSpeeds := MotorPower("forward", 0.0))
      case Turn => fixed.(motorSpeeds := MotorPower(ManeuverName(r.direction), 100.0), turning := true)
      case Arrive =>
        fixed.(completedTurn := true, motorSpeeds := MotorPower("forward", if r.isVisible then 55.0 else 0.0))
      case _ => fixed.(motorSpeeds := MotorPower("forward", 55.0))
  }

  /** The body removes the vehicle from the queue: it is in its destination lane and the camera
      has lost it. */
  predicate Departs(r: VehicleRecord, crossing: map<Side, bool>, stopLines: seq<Segment>)
    requires AllSides(crossing)
  {
    DecisionOf(r, crossing, stopLines) == Arrive && !r.isVisible
  }

  /** The body writes `self.turning = False` on the queue. */
  predicate ClearsTurning(r: VehicleRecord, crossing: map<Side, bool>, stopLines: seq<Segment>)
    requires AllSides(crossing)
  {
    DecisionOf(r, crossing, stopLines) == Hold || DecisionOf(r, crossing, stopLines) == Arrive
  }

  /** A car without a lane fix is left exactly as it is. */
  lemma ArbitrateUntracked(r: VehicleRecord, crossing: map<Side, bool>, stopLines: seq<Segment>)
    requires AllSides(crossing) && r.lane == Undefined
    ensures Arbitrate(r, crossing, stopLines) == r
    ensures !Departs(r, crossing, stopLines) && !ClearsTurning(r, crossing, stopLines)
  {
  }

  /** A closed crosswalk on either the entry side or the destination side stops every wheel,
      whether or not the car touches a stop line, and the car stays in the queue. */
  lemma ArbitrateHolds(r: VehicleRecord, crossing: map<Side, bool>, stopLines: seq<Segment>, entry: Lane)
    requires AllSides(crossing) && r.lane == At(entry)
    requires crossing[entry.side] || crossing[Destination(r, entry).side]
    ensures Arbitrate(r, crossing, stopLines).motorSpeeds == [0.0, 0.0, 0.0, 0.0]
    ensures Arbitrate(r, crossing, stopLines).turning == r.turning
    ensures Arbitrate(r, crossing, stopLines).completedTurn == r.completedTurn
    ensures !Departs(r, crossing, stopLines) && ClearsTurning(r, crossing, stopLines)
  {
  }

  /** With both crosswalks free, a car on a stop line that is not yet in its destination lane
      gets full power for its maneuver and is marked as turning. */
  lemma ArbitrateTurns(r: VehicleRecord, crossing: map<Side, bool>, stopLines: seq<Segment>, entry: Lane)
    requires AllSides(crossing) && r.lane == At(entry)
    requires !crossing[entry.side] && !crossing[Destination(r, entry).side]
    requires HitsStopLine(stopLines, r.contour) && entry != Destination(r, entry)
    ensures Arbitrate(r, crossing, stopLines).motorSpeeds == MotorPower(ManeuverName(r.direction), 100.0)
    ensures Arbitrate(r, crossing, stopLines).turning
    ensures Arbitrate(r, crossing, stopLines).completedTurn == r.completedTurn
    ensures !Departs(r, crossing, stopLines) && !ClearsTurning(r, crossing, stopLines)
  {
  }

  /** With both crosswalks free, a car in its destination lane has completed its turn; it
      cruises while visible, and is stopped and evicted once the camera has lost it. */
  lemma ArbitrateArrives(r: VehicleRecord, crossing: map<Side, bool>, stopLines: seq<Segment>, entry: Lane)
    requires AllSides(crossing) && r.lane == At(entry)
    requires !crossing[entry.side] && !crossing[Destination(r, entry).side]
    requires entry == Destination(r, entry)
    ensures Arbitrate(r, crossing, stopLines).completedTurn
    ensures r.isVisible ==> Arbitrate(r, crossing, stopLines).motorSpeeds == [55.0, 55.0, 55.0, 55.0]
    ensures !r.isVisible ==> Arbitrate(r, crossing, stopLines).motorSpeeds == [0.0, 0.0, 0.0, 0.0]
    ensures Departs(r, crossing, stopLines) <==> !r.isVisible
    ensures ClearsTurning(r, crossing, stopLines)
  {
  }

  /** In every other case the car goes forward at cruising speed and nothing else happens. */
  lemma ArbitrateCruises(r: VehicleRecord, crossing: map<Side, bool>, stopLines: seq<Segment>, entry: Lane)
    requires AllSides(crossing) && r.lane == At(entry)
    requires !crossing[entry.side] && !crossing[Destination(r, entry).side]
    requires !HitsStopLine(stopLines, r.contour) && entry != Destination(r, entry)
    ensures Arbitrate(r, crossing, stopLines).motorSpeeds == [55.0, 55.0, 55.0, 55.0]
    ensures Arbitrate(r, crossing, stopLines).turning == r.turning
    ensures Arbitrate(r, crossing, stopLines).completedTurn == r.completedTurn
    ensures !Departs(r, crossing, stopLines) && !ClearsTurning(r, crossing, stopLines)
  {
  }

  /** Only the power vector, the destination lane, the completion flag and the turning flag are
      ever written. */
  lemma ArbitrateFrame(r: VehicleRecord, crossing: map<Side, bool>, stopLines: seq<Segment>)
    requires AllSides(crossing)
    ensures var r' := Arbitrate(r, crossing, stopLines);
      r' == r.(motorSpeeds := r'.motorSpeeds, stopLane := r'.stopLane,
               completedTurn := r'.completedTurn, turning := r'.turning)
  {
    if r.lane.At? {
      var fixed := r.(stopLane := Some(Destination(r, r.lane.lane)));
      var r' := Arbitrate(r, crossing, stopLines);
      match DecisionOf(r, crossing, stopLines)
      case Untracked =>
      case Hold => assert r' == fixed.(motorSpeeds := r'.motorSpeeds);
      case Turn => assert r' == fixed.(motorSpeeds := r'.motorSpeeds, turning := true);
      case Arrive => assert r' == fixed.(motorSpeeds := r'.motorSpeeds, completedTurn := true);
      case Cruise => assert r' == fixed.(motorSpeeds := r'.motorSpeeds);
    }
  }

  /** The destination lane is filled in from the turn table once, while it is empty, and never
      changed afterwards; a completed turn stays completed. */
  lemma StopLaneFixedOnce(r: VehicleRecord, crossing: map<Side, bool>, stopLines: seq<Segment>)
    requires AllSides(crossing)
    ensures r.stopLane.Some? ==> Arbitrate(r, crossing, stopLines).stopLane == r.stopLane
    ensures r.stopLane.None? && r.lane.At? ==>
      Arbitrate(r, crossing, stopLines).stopLane == Some(TurnTarget(r.lane.lane.side, r.direction))
    ensures r.lane == Undefined ==> Arbitrate(r, crossing, stopLines).stopLane == r.stopLane
    ensures r.completedTurn ==> Arbitrate(r, crossing, stopLines).completedTurn
  {
  }

  /** `car.turning` is set by a turn and reset by nothing: the reset writes to the queue. */
  lemma TurningIsSticky(r: VehicleRecord, crossing: map<Side, bool>, stopLines: seq<Segment>)
    requires AllSides(crossing)
    ensures Arbitrate(r, crossing, stopLines).turning <==>
      r.turning || DecisionOf(r, crossing, stopLines) == Turn
  {
  }

  /** A destination the arbiter assigns is always a departing lane, so a car whose destination
      came from the turn table only completes in a departing lane. */
  lemma DestinationDeparts(r: VehicleRecord, crossing: map<Side, bool>, stopLines: seq<Segment>)
    requires AllSides(crossing)
    requires r.stopLane.Some? ==> r.stopLane.value.orientation == Backward
    ensures var r' := Arbitrate(r, crossing, stopLines);
      r'.stopLane.Some? ==> r'.stopLane.value.orientation == Backward
    ensures Departs(r, crossing, stopLines) ==> r.lane.At? && r.lane.lane.orientation == Backward
  {
  }

  /** A car on the top forward lane that wants to turn right and whose box straddles the top
      stop line is sent right at full power while the intersection is free, and is held while a
      pedestrian crosses on the left side, its destination. */
  lemma {:induction false} TopRightTurnScenario(r: VehicleRecord)
    requires r.lane == At(Lane(Top, Forward)) && r.direction == RightTurn && r.stopLane == None
    requires r.contour == Rect(230, 80, 30, 30)
    ensures var free := Closures(false, false, false, false);
      Arbitrate(r, free, StopLines).motorSpeeds == [100.0, 13.0, 100.0, 13.0] &&
      Arbitrate(r, free, StopLines).stopLane == Some(Lane(Left, Backward)) &&
      Arbitrate(r, free, StopLines).turning
    ensures var busy := Closures(false, false, true, false);
      Arbitrate(r, busy, StopLines).motorSpeeds == [0.0, 0.0, 0.0, 0.0]
  {
    var side := Segment(Point(230, 80), Point(230, 110));
    assert RectSides(r.contour)[1] == side;
    assert SegmentsIntersect(StopLines[0], side);
    assert SegmentIntersectsRect(StopLines[0], r.contour);
    assert HitsStopLine(StopLines, r.contour);
    MotorPowerTemplates(100.0);
  }
}
