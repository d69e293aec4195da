/**
 * The vehicle record and its actuation mapping (vehicle.py). A vehicle is an object: the
 * scheduler, the per-frame tracking and the telemetry callback all update its fields in place.
 */
module Vehicles {
  import opened Options
  import opened Geometry
  import opened Layout

  /** Per-wheel power ratios for each maneuver (`STRAIGHT_PATH`, `RIGHT_PATH`, `LEFT_PATH`). */
  const StraightPath: seq<real> := [1.0, 1.0, 1.0, 1.0]
  const RightPath: seq<real> := [1.0, 0.13, 1.0, 0.13]
  const LeftPath: seq<real> := [0.35, 1.0, 0.35, 1.0]

  /** The ratio template `direction_to_motor_power` uses for a maneuver string; any other
      string selects no template. */
  function Template(turn: string): seq<real> {
    if turn == "right" then RightPath
    else if turn == "left" then LeftPath
    else if turn == "forward" then StraightPath
    else []
  }

  /** The power vector `direction_to_motor_power(turn, speed)` stores in `motor_speeds`. */
  function MotorPower(turn: string, speed: real): (power: seq<real>)
    ensures |power| == 4 <==> turn == "forward" || turn == "right" || turn == "left"
    ensures |power| == 4 || power == []
  {
    var t := Template(turn);
    if |t| == 4 then [t[0] * speed, t[1] * speed, t[2] * speed, t[3] * speed] else []
  }

  /** The three maneuvers give the fixed templates scaled by the speed. */
  lemma MotorPowerTemplates(speed: real)
    ensures MotorPower("forward", speed) == [speed, speed, speed, speed]
    ensures MotorPower("right", speed) == [speed, 0.13 * speed, speed, 0.13 * speed]
    ensures MotorPower("left", speed) == [0.35 * speed, speed, 0.35 * speed, speed]
  {
  }

  /** Any other string leaves the instruction list empty. */
  lemma MotorPowerUnknownTurn(turn: string, speed: real)
    requires turn != "forward" && turn != "left" && turn != "right"
    ensures MotorPower(turn, speed) == []
  {
  }

  /** For the three maneuvers the vector has four entries, and speed 0 stops every wheel. */
  lemma MotorPowerAtRest(turn: string)
    requires turn == "forward" || turn == "left" || turn == "right"
    ensures |MotorPower(turn, 0.0)| == 4
    ensures MotorPower(turn, 0.0) == [0.0, 0.0, 0.0, 0.0]
  {
  }

  /** The same vector with the wheels of the two sides exchanged. */
  function Mirrored(p: seq<real>): seq<real>
    requires |p| == 4
  {
    [p[1], p[0], p[3], p[2]]
  }

  /** A left turn is not the mirror image of a right turn: the slowed wheels run at 35%, not
      13%, of the speed. */
  lemma {:induction false} LeftIsNotMirroredRight(speed: real)
    requires speed != 0.0
    ensures |MotorPower("right", speed)| == 4
    ensures MotorPower("left", speed) != Mirrored(MotorPower("right", speed))
  {
    MotorPowerTemplates(speed);
    assert MotorPower("left", speed)[0] == 0.35 * speed;
    assert Mirrored(MotorPower("right", speed))[0] == 0.13 * speed;
  }

  /** One template scaled by the speed, built by appending wheel by wheel. */
  method Scale(path: seq<real>, speed: real) returns (instructions: seq<real>)
    requires |path| == 4
    ensures |instructions| == 4
    ensures forall j :: 0 <= j < 4 ==> instructions[j] == path[j] * speed
  {
    instructions := [];
    for j := 0 to 4
      invariant |instructions| == j
      invariant forall k :: 0 <= k < j ==> instructions[k] == path[k] * speed
    {
      instructions := instructions + [path[j] * speed];
    }
  }

  /** A four-entry vector that scales a maneuver's template entry by entry is its power vector. */
  lemma ScaledTemplate(turn: string, speed: real, v: seq<real>)
    requires |Template(turn)| == 4 && |v| == 4
    requires forall j :: 0 <= j < 4 ==> v[j] == Template(turn)[j] * speed
    ensures v == MotorPower(turn, speed)
  {
  }

  /** Every field of a vehicle that can change, as one value. */
  datatype VehicleRecord = VehicleRecord(
    motorSpeeds: seq<real>,
    direction: Maneuver,
    contour: Rect,
    lane: LaneFix,
    previousLane: LaneFix,
    completedTurn: bool,
    isVisible: bool,
    timeSinceVisible: nat,
    stopLane: Option<Lane>,
    greyscale: real,
    currentSpeed: real,
    mileage: real,
    sonarAngle: real,
    sonarDistance: real,
    turning: bool)

  /** A new car's fields: motors at rest, turning right, no lane fix, no destination, not
      visible, not completed, not turning, telemetry 0. The source sets no previous lane until
      the first lane fix; `Undefined` stands for it here. */
  const InitialRecord := VehicleRecord([0.0, 0.0, 0.0, 0.0], RightTurn, Rect(0, 0, 0, 0), Undefined,
    Undefined, false, false, 0, None, 0.0, 0.0, 0.0, 0.0, 0.0, false)

  /** What `state()` reports, in its order. */
  datatype StateReport = StateReport(
    id: string, motorSpeeds: seq<real>, direction: string, greyscale: real,
    currentSpeed: real, mileage: real, sonarAngle: real, sonarDistance: real)

  class Vehicle {
    const id: string
    const color: seq<int>
    var motorSpeeds: seq<real>
    var direction: Maneuver
    var contour: Rect
    var lane: LaneFix
    var previousLane: LaneFix
    var completedTurn: bool
    var isVisible: bool
    var timeSinceVisible: nat
    var stopLane: Option<Lane>
    var greyscale: real
    var currentSpeed: real
    var mileage: real
    var sonarAngle: real
    var sonarDistance: real
    var turning: bool

    function Record(): VehicleRecord
      reads this
    {
      VehicleRecord(motorSpeeds, direction, contour, lane, previousLane, completedTurn, isVisible,
        timeSinceVisible, stopLane, greyscale, currentSpeed, mileage, sonarAngle, sonarDistance, turning)
    }

    /** `Vehicle(params)`: a car that is stopped, has no lane fix and no destination, has not been
        seen, and intends to turn right. */
    constructor (id: string, color: seq<int>)
      ensures this.id == id && this.color == color
      ensures Record() == InitialRecord
    {
      this.id := id;
      this.color := color;
      motorSpeeds := [0.0, 0.0, 0.0, 0.0];
      direction := RightTurn;
      contour := Rect(0, 0, 0, 0);
      lane := Undefined;
      previousLane := Undefined;
      completedTurn := false;
      isVisible := false;
      timeSinceVisible := 0;
      stopLane := None;
      greyscale, currentSpeed, mileage, sonarAngle, sonarDistance := 0.0, 0.0, 0.0, 0.0, 0.0;
      turning := false;
    }

    /** `direction_to_motor_power(car_turns, speed)`: overwrites `motor_speeds`, and nothing else. */
    method DirectionToMotorPower(carTurns: string, speed: real)
      modifies this
      ensures Record() == old(Record()).(motorSpeeds := MotorPower(carTurns, speed))
    {
      var carInstructions: seq<real> := [];
      if carTurns == "right" {
        carInstructions := Scale(RightPath, speed);
        ScaledTemplate(carTurns, speed, carInstructions);
      } else if carTurns == "left" {
        carInstructions := Scale(LeftPath, speed);
        ScaledTemplate(carTurns, speed, carInstructions);
      } else if carTurns == "forward" {
        carInstructions := Scale(StraightPath, speed);
        ScaledTemplate(carTurns, speed, carInstructions);
      } else {
        MotorPowerUnknownTurn(carTurns, speed);
      }
      motorSpeeds := carInstructions;
    }

    /** `state()`: identity, last power vector, maneuver and telemetry, in that order. */
    function State(): (s: StateReport)
      reads this
      ensures s.id == id && s.motorSpeeds == motorSpeeds && s.direction == ManeuverName(direction)
      ensures s.greyscale == greyscale && s.currentSpeed == currentSpeed && s.mileage == mileage
      ensures s.sonarAngle == sonarAngle && s.sonarDistance == sonarDistance
    {
      StateReport(id, motorSpeeds, ManeuverName(direction), greyscale, currentSpeed, mileage,
        sonarAngle, sonarDistance)
    }
  }
}
