# Intersection arbitration, modelled in Dafny

A ceiling camera watches a four-way intersection. Two model cars drive through it, and pedestrians cross it. Each camera frame goes through the same steps:

- the cars' visibility counters tick;
- the scheduler (`ControlQueue.control`) runs;
- every detected box is handled.

A car box is matched to a car by colour. The car joins the queue if it is not queued already, and it gets a lane fix from the eight lane corridors. A pedestrian box is matched to a tracked pedestrian by overlap; if none overlaps, it becomes a new pedestrian who joins the queue.

On each tick the scheduler does three things, in order:

1. The pedestrians at the head of the queue start crossing. Each closes its side's crosswalk and stamps its start time.
2. Sides whose pedestrian started at least 15 seconds ago reopen.
3. Every car in the queue gets one decision, in this order of precedence:
   - hold while the crosswalk of its entry side or of its destination side is closed;
   - turn at full power while it touches a stop line outside its destination lane;
   - complete the turn once it is in its destination lane, and leave the queue if the camera has lost it;
   - otherwise cruise.

The Dafny modules follow the program's structure:

| module | file | models |
|---|---|---|
| `Geometry` | geometry.dfy | segment/segment and segment/box intersection, stop-line search, rectangle overlap |
| `Layout` | layout.dfy | sides, lanes, maneuvers, the turn table `LANE_MAPPINGS`, the painted lines and the lane corridors |
| `Vehicles` | vehicle.dfy | the `Vehicle` class, its motor-power mapping and `state()` |
| `Pedestrians` | pedestrian.dfy | the `Pedestrian` class |
| `Arbitration` | arbitration.dfy | the per-car decision of `control_cars`, as a function of a vehicle snapshot |
| `Sweep` | sweep.dfy | Python's `for x in xs: ... xs.remove(x)` loop |
| `Queuing` | queuing.dfy | the `ControlQueue` class |
| `Tracking` | tracking.dfy | the per-frame logic of the camera loop: visibility, admission, lane assignment, pedestrian tracking |

Objects whose fields the program updates in place are classes: `Vehicle`, `Pedestrian`, `ControlQueue`, and `Tracker` for the camera loop's state: the module-level `cars` and `control_queue`, and `main`'s locals `pedestrian_counter` and `current_pedestrians`. Their methods are proved against pure functions:

- The car decision is proved against `Arbitration.Arbitrate`, which works on a `VehicleRecord` snapshot of a vehicle's fields.
- Lane assignment is proved against `Tracking.Picks`.
- Both removal loops are proved against `Sweep.Swept` and `Sweep.Visited`.

The model keeps three behaviours of the program that look unintended:

- **Removal while iterating.** `control_cars` and the reopening loop of `control_pedestrians` remove entries from the list they are iterating. The element after each removed one is not looked at on that pass (`Sweep.SkipAfterRemoval`, `Queuing.EvictionSkipsNext`).
- **The `turning` reset lands on the queue.** `self.turning = False` writes an attribute of the queue object, never the car's flag. So `car.turning` is set by a turn and never cleared (`Arbitration.TurningIsSticky`, field `ControlQueue.turning`).
- **The car update sits inside the lane loop.** It runs once per corridor. The car's lane ends as the choice among all eight corridors, and its previous lane as the choice among the first seven (`Tracking.Tracker.LocateVehicle`).

The test `time_since_visible < 51` reads as if a car stayed visible for up to 51 frames without a sighting. In the code, the start-of-frame update alternates the counter between 0 and 1, so that test always passes. A car is invisible after two frames without a sighting (`Tracking.LostAfterTwoTicks`, `Tracking.SightingAfterTick`). The model follows the code.

## Model

| member | source | states |
|---|---|---|
| Geometry.SegmentsIntersect | queuing.py:72-78 | `line_intersects_line` never holds for a segment shrunk to a point, nor for two segments that start at the same point or end at the same point |
| Geometry.TouchingEndToStart | queuing.py:72-78 | two segments meeting at a point where one starts and the other ends are reported as crossing for one turning direction and not for the other |
| Geometry.CrossRotates | queuing.py:73-74 | the orientation test gives the same answer for a rotation of its three points |
| Geometry.SegmentsIntersectSymmetric | queuing.py:72-78 | `line_intersects_line(l1, l2) == line_intersects_line(l2, l1)` |
| Geometry.CollinearSegmentsDoNotIntersect | queuing.py:72-78 | segments whose four end points lie on one line never intersect, even when they overlap |
| Geometry.CrossesAny | queuing.py:92-97 | the first-match search over the box sides is true iff some side intersects the segment |
| Geometry.SegmentIntersectsRect | queuing.py:80-97 | `line_intersects_rect` never holds for a segment shrunk to a point, nor for a box of zero width and height |
| Geometry.SegmentIntersectsRectSides | queuing.py:80-97 | `line_intersects_rect` is true iff the segment intersects one of the four sides built from `[x, y, w, h]` |
| Geometry.HitsStopLine | queuing.py:100-105 | `intersection_with_stop_line` is true iff some stop line intersects the car's box |
| Geometry.OverlapArea | main.py:115-127 | the overlap area is never negative, and it is 0 exactly when the x- or y-extents overlap by at most 0 |
| Geometry.OverlapSymmetric | main.py:115-127 | swapping the two rectangles gives the same area |
| Geometry.OverlapWithinFirst | main.py:119-125 | for a well-formed first rectangle the overlap never exceeds its area |
| Geometry.OverlapWithinBoth | main.py:119-125 | for two well-formed rectangles the overlap never exceeds either area |
| Layout.TurnTarget | queuing.py:6-27 | every `LANE_MAPPINGS` entry is a `-backward` lane on a side other than the one the car enters from |
| Layout.ManeuversReachDifferentSides | queuing.py:6-27 | the three maneuvers from one side reach three different sides |
| Layout.StopLinesAtTheEntrances | main.py:54-59 | with the painted `stop_lines`, a box straddling the top stop line touches one, and a box further up the top lane touches none |
| Layout.LanesCorners | main.py:18-71 | each corridor spans from an end point of one painted line to an end point of the next, as listed |
| Layout.CorridorsWellFormed | main.py:62-71 | there are eight corridors, each with its first corner above and left of the second, and all names differ |
| Vehicles.MotorPower | vehicle.py:25-39 | the stored vector has four entries exactly for 'forward', 'right' and 'left', and is empty otherwise |
| Vehicles.MotorPowerTemplates | vehicle.py:19-36 | 'forward' gives `[s,s,s,s]`, 'right' gives `[s,0.13s,s,0.13s]` and 'left' gives `[0.35s,s,0.35s,s]` |
| Vehicles.MotorPowerUnknownTurn | vehicle.py:26-39 | any other maneuver string gives the empty list |
| Vehicles.MotorPowerAtRest | vehicle.py:27-36 | for the three maneuvers the vector has four entries, and speed 0 gives all zeros |
| Vehicles.LeftIsNotMirroredRight | vehicle.py:20-22 | for any non-zero speed, the left-turn vector is not the right-turn vector with its sides exchanged |
| Vehicles.Scale | vehicle.py:29-36 | the append loop yields four entries, each the template entry times the speed |
| Vehicles.ScaledTemplate | vehicle.py:25-36 | a four-entry vector that scales a maneuver's template entry by entry is that maneuver's power vector |
| Vehicles.Vehicle.constructor | vehicle.py:3-22 | a new car: motors `[0,0,0,0]`, turning right, no lane fix, no destination, counter 0, not visible, not completed, not turning, telemetry 0 |
| Vehicles.Vehicle.DirectionToMotorPower | vehicle.py:25-39 | `motor_speeds` becomes the maneuver's power vector, and no other field changes |
| Vehicles.Vehicle.State | vehicle.py:42-43 | the report is id, motor speeds, maneuver name, greyscale, speed, mileage, sonar angle and sonar distance, in that order |
| Pedestrians.Pedestrian.constructor | main.py:239 | a new pedestrian carries the id it was given |
| Arbitration.Closures | queuing.py:45-50 | the closure map has an entry for each of the four sides, holding the given values |
| Arbitration.Destination | queuing.py:153-154 | while no destination is stored, the table gives a `-backward` lane on another side than the car's entry side |
| Arbitration.DecisionOf | queuing.py:149-184 | the branch is 'untracked' exactly when the car has no lane fix, and a turn happens only on a stop line |
| Arbitration.Arbitrate | queuing.py:149-184 | a car with a lane fix ends with a destination and a four-entry motor vector; its lane, box, visibility and maneuver never change |
| Arbitration.ArbitrateUntracked | queuing.py:149 | a car with lane 'Undefined' is left unchanged, never leaves the queue and never resets the attribute |
| Arbitration.ArbitrateHolds | queuing.py:157-159 | a closed entry or destination side stops every wheel whatever the stop-line test says; the car stays queued and the turning flag is unchanged |
| Arbitration.ArbitrateTurns | queuing.py:162-169 | free crosswalks, on a stop line, not in its destination: power 100 for its maneuver and `turning` set |
| Arbitration.ArbitrateArrives | queuing.py:172-181 | free crosswalks, in its destination lane: the turn is completed; forward 55 if visible, otherwise forward 0 and it leaves the queue |
| Arbitration.ArbitrateCruises | queuing.py:183-184 | in every other case the car gets forward 55 and nothing else changes |
| Arbitration.ArbitrateFrame | queuing.py:149-184 | only the power vector, destination, completion flag and turning flag ever change |
| Arbitration.StopLaneFixedOnce | queuing.py:153-154 | the destination is taken from the turn table only while it is empty and never changes once set; a completed turn stays completed |
| Arbitration.TurningIsSticky | queuing.py:159-181 | after the body, the car's turning flag is set iff it was set before or the car turned on this tick |
| Arbitration.DestinationDeparts | queuing.py:153-154 | a destination from the turn table is always a `-backward` lane, so a car only leaves the queue from a departing lane |
| Arbitration.TopRightTurnScenario | queuing.py:149-169 | a right-turning car on the top stop line turns with `[100,13,100,13]` toward the left departing lane, and is held while the left crosswalk is closed |
| Sweep.RemoveFirst | queuing.py:128 | `list.remove` shortens the list by one |
| Sweep.RemoveFirstAt | queuing.py:180 | in a list without repeats, `remove` drops the element exactly at its index |
| Sweep.SweepStep | queuing.py:124-128 | a pass looks at the head; when the head is removed, the element after it is skipped |
| Sweep.VisitPattern | queuing.py:139-180 | the body runs on the first element, and on each later element exactly when its predecessor was not both looked at and removed |
| Sweep.SweptKeepsOrder | queuing.py:124-128 | after the pass, the list is the old list without the elements that were looked at and removed, in order |
| Sweep.SkipAfterRemoval | queuing.py:124-128 | the element after a removed one is not looked at on that pass, and it survives the pass |
| Sweep.SweepNothingDoomed | queuing.py:124-128 | when the body removes nothing, the list is unchanged and every element is looked at |
| Sweep.SweepKeeps | queuing.py:124-128 | an element the body would not remove survives the pass |
| Sweep.SweepAdvance | queuing.py:124-128 | one iteration of the index loop (look, maybe remove, advance the index) keeps the loop in step with the whole pass |
| Sweep.SweepDone | queuing.py:124-128 | when the index passes the end, the list is the whole pass's result, and the elements looked at are those of the pass |
| Queuing.Expired | queuing.py:124-125 | only started pedestrians expire, and every one started 15 seconds or more before `now` does |
| Queuing.ExpiredGrows | queuing.py:124-125 | a later tick expires every pedestrian an earlier one did |
| Queuing.WaitingPedestrians | queuing.py:118 | the waiting pedestrians are the queue's leading run of pedestrians, and the next entry (if any) is a car |
| Queuing.CarsFollowWaiting | queuing.py:118-133 | every car of the queue stands behind the waiting pedestrians |
| Queuing.ControlCarsKeepsPedestrians | queuing.py:139-141 | `control_cars` never removes a pedestrian entry |
| Queuing.EvictionSkipsNext | queuing.py:139-180 | the entry after an evicted car is not looked at on that pass and stays queued |
| Queuing.ControlQueue.constructor | queuing.py:43-51 | an empty queue, every crosswalk open, nobody crossing |
| Queuing.ControlQueue.AddCar | queuing.py:54-57 | sets the car's maneuver, appends the car and leaves earlier entries as they were |
| Queuing.ControlQueue.AddPedestrian | queuing.py:60-63 | sets the pedestrian's side, appends it and leaves earlier entries as they were |
| Queuing.ControlQueue.Remove | queuing.py:66-70 | pops the head of a non-empty queue; an empty queue stays empty |
| Queuing.ControlQueue.PedestrianCrossing | queuing.py:108-112 | closes the pedestrian's side, stamps `now` and appends it to the started list |
| Queuing.ControlQueue.StartFirst | queuing.py:118-121 | one turn of the admission loop: the head pedestrian starts crossing and leaves the queue |
| Queuing.ControlQueue.AdmitPedestrians | queuing.py:118-121 | the waiting pedestrians leave the queue in order; each is stamped and appended to the started list; the queue then is empty or starts with a car; a side ends closed iff it was closed or a waiting pedestrian crosses there; of the pedestrians only the start time is written |
| Queuing.ControlQueue.ReopenLanes | queuing.py:124-128 | the started list becomes the pass's result over the expired pedestrians; a side ends closed iff it was closed and no expired pedestrian looked at on it reopened it |
| Queuing.ControlQueue.ControlPedestrians | queuing.py:115-128 | admission then reopening: the queue loses its waiting pedestrians, who are stamped and not reopened on the same tick; the started list and closures are the composition of both loops; of the pedestrians only the start time is written, so each closes the side it had |
| Queuing.ControlQueue.PowerTurn | queuing.py:163-168 | the car's power vector becomes power 100 for its maneuver |
| Queuing.ControlQueue.CompleteTurn | queuing.py:172-180 | the turn is marked complete; forward 55 if visible, otherwise forward 0 and eviction is reported |
| Queuing.ControlQueue.AssignStopLane | queuing.py:153-154 | an empty destination is filled from the turn table; an existing one is kept |
| Queuing.ControlQueue.ArbitrateCar | queuing.py:141-184 | the car's fields become `Arbitrate` of its old fields; eviction and the attribute write are reported as the decision says |
| Queuing.ControlQueue.ControlEntry | queuing.py:139-184 | the body at index i: a car is updated as decided and removed exactly when it departs; a pedestrian is passed over |
| Queuing.ControlQueue.ControlCars | queuing.py:136-184 | the queue becomes the pass's result; each car looked at carries `Arbitrate`'s result and every other car keeps its fields |
| Queuing.ControlQueue.Control | queuing.py:131-133 | the pedestrians' turn, then the cars' pass over the rest of the queue, with the closures left by the pedestrians' turn; of the pedestrians only the start time is written |
| Tracking.Tick | main.py:181-186 | the start-of-frame update changes only visibility and the counter; the counter ends at most 1, and an invisible car stays invisible |
| Tracking.Sighting | main.py:225-232 | the car takes the box and the new lane fix, its old lane fix becomes the previous one, and a car whose counter is at most 1 becomes visible with counter 0 |
| Tracking.Sighted | main.py:230-232 | a detection changes only visibility and the counter, and never raises the counter |
| Tracking.LostAfterTwoTicks | main.py:181-186 | two frames without a sighting leave any car invisible |
| Tracking.SightingAfterTick | main.py:181-232 | after the start-of-frame update, a detection always makes the car visible, resets its counter and stores its box and lane |
| Tracking.Score | main.py:219-220 | a corridor's score for a box is never negative |
| Tracking.BestIsUnique | main.py:212-223 | at most one corridor is the best: ties go to the earlier one |
| Tracking.PicksIsDeterministic | main.py:209-223 | a box has at most one lane fix |
| Tracking.InsideTopForward | main.py:209-223 | a box inside the top inbound corridor gets that corridor |
| Tracking.TieGoesToFirstListed | main.py:209-223 | a box with equal overlap on both top corridors gets the one listed first |
| Tracking.OutsideEveryLane | main.py:209-223 | a box touching no corridor gets 'Undefined' |
| Tracking.LeadingStep | main.py:219-223 | one corridor more: a strictly larger overlap takes over, anything else keeps the choice |
| Tracking.ScoreNeedsContact | main.py:219 | the containment test skips only corridors whose overlap is 0 |
| Tracking.SightingAgain | main.py:225-232 | two updates of a car in one frame equal one update whose previous lane is the first update's lane |
| Tracking.NatToString | main.py:239 | `str(n)` has at least one digit, and at least two from 10 on |
| Tracking.NatToStringInjective | main.py:239 | different numbers are written differently |
| Tracking.PedestrianId | main.py:239 | an id is `pedestrian_` followed by at least one character |
| Tracking.PedestrianIdInjective | main.py:239 | different counter values give different pedestrian ids |
| Tracking.BoxOverlap | main.py:131 | the overlap of two `[x, y, w, h]` boxes is never negative |
| Tracking.ItemIdentification | main.py:129-134 | returns the first tracked object in list order whose box overlaps the new box, and nothing iff none overlaps |
| Tracking.Tracker.DistinctPedestrians | main.py:239-249 | tracked pedestrians have distinct ids, and so are distinct objects |
| Tracking.Tracker.constructor | main.py:74-86 | both cars with their colours and the `Vehicle` constructor's default fields; an empty queue with every crosswalk open, nobody started and no `turning` attribute; no pedestrian seen |
| Tracking.Tracker.TickCar | main.py:182-186 | one car's counter update is `Tick` |
| Tracking.Tracker.TickVisibility | main.py:181-186 | every car's record becomes `Tick` of its old record |
| Tracking.Tracker.VehicleInQueue | main.py:200-203 | true iff a queued vehicle has the detected name as its id |
| Tracking.Tracker.AdmitVehicle | main.py:200-208 | a car joins the queue iff it is identified and not queued: the green car to turn right, any other to turn left; otherwise nothing changes, and a car already queued keeps its maneuver |
| Tracking.Tracker.ConsiderLane | main.py:213-223 | a corridor whose overlap beats the best so far becomes the choice; otherwise the choice stays |
| Tracking.Tracker.ChooseStep | main.py:212-223 | one pass of the lane loop: a strictly larger overlap takes over, otherwise the choice stays; the running choice stays the best among the corridors seen |
| Tracking.Tracker.Place | main.py:225-232 | the car gets the box, moves its lane to its previous lane, takes the running choice, and is marked visible if seen within 51 frames |
| Tracking.Tracker.LocateVehicle | main.py:209-232 | the result is the lane fix of the box among all eight corridors; an identified car ends with that lane and, as previous lane, the fix among the first seven |
| Tracking.Tracker.TrackPedestrian | main.py:239-250 | a box overlapping a tracked pedestrian moves the first such one's box and writes no other pedestrian field; otherwise a fresh pedestrian with the next id is tracked, counted and queued for the bottom side |
| Tracking.Tracker.Enroll | main.py:248-250 | a new pedestrian is appended to the tracked list, advances the counter and joins the queue for the bottom side |
| Tracking.Tracker.Frame | main.py:176-250 | one frame: counters tick, the scheduler runs, boxes are handled in order; every identified car detected in the frame ends visible |
| Tracking.Tracker.HandleDetections | main.py:190-250 | the loop over a frame's boxes; every identified car among them ends visible |
| Tracking.Tracker.HandleDetection | main.py:197-250 | one box: no car becomes invisible, and an identified car box makes its car visible |
| Tracking.Tracker.HandleCar | main.py:197-232 | admission, then the lane loop: an identified car not yet queued joins the queue with its maneuver, and the car ends visible in the box, with its lane the best of all eight corridors and its previous lane the best of the first seven; all its other fields are kept |
| Tracking.Tracker.ControlStep | main.py:188 | the scheduler leaves every car's visibility counter as it was |

## Left out

- `identifyVehicle` (colour matching over pixel regions) is an oracle. Each car box arrives with the name it produced: a key of `cars` or `'Unidentified'`.
- Object detection, camera capture, resizing and all drawing and window calls are left out. A frame arrives as a list of boxes (`Tracking.Detection`).
- The websocket callbacks, their threads, the telemetry parser and the signal handler are left out. The telemetry fields of a vehicle are real numbers that the scheduler never reads.
- data/car_main.py is not part of this model. It is firmware for the cars.
- `LANE_LINE_MIDPOINTS` is not used by any decision. `print` calls are logging only.
- Time is a real `now` parameter, one value per tick. The program reads the clock separately for each stamp and each comparison.
- Python floats are modelled as Dafny reals, without rounding.
- pedestrian.py is not part of this model. `Pedestrians.Pedestrian` has only the fields the program reads and writes. The defaults of the box, side and start time are assumptions; the program overwrites the box and side before reading them.
- Maneuvers passed to `direction_to_motor_power` are strings in the model. The error for a non-string argument, an unbound local, is not modelled.
- `Vehicle.previous_lane`: the source's constructor does not create it; it is first written by the lane loop, and nothing in the program reads it. The model gives a new car `previousLane == Undefined` (`Vehicles.InitialRecord`).
- `ControlQueue.turning`: the model stores an `Option<bool>`, because the attribute does not exist until its first write.
- Queuing.ControlQueue.ControlCars: states only that the queue's `turning` attribute is unchanged or false after the pass. The exact rule is that it is false iff it was false before or some car looked at held or arrived. Nothing reads this attribute.
- Queuing.ControlQueue.Control: states the pedestrians' turn only through the queue and the start stamps. The exact closures and started list are stated by `ControlPedestrians`, which it calls.
- Tracking.Tracker.HandleDetection, Tracking.Tracker.HandleDetections, Tracking.Tracker.Frame: state visibility and the tracker invariant, not the per-box queue and pedestrian updates. Those are stated by `AdmitVehicle`, `LocateVehicle` and `TrackPedestrian`.
- Tracking.Tracker.ControlStep: states only that visibility counters are kept. The scheduler's effect is stated by `Queuing.ControlQueue.Control`.
- The `Tracker.Valid` invariant holds what `main` guarantees by construction: the two cars are distinct objects carrying their keys as ids, queue entries are not repeated, and a queued pedestrian has not started. Only `AddCar`, `AddPedestrian`, `Remove` and `PedestrianCrossing` accept any state. The scheduler's passes (`StartFirst`, `AdmitPedestrians`, `ReopenLanes`, `ControlPedestrians`, `ControlCars`, `Control`) require `ControlQueue.Valid`: all four sides present, no entry queued twice, no pedestrian started twice. `main` guarantees these: it queues a car only when no queued vehicle has its id, and every queued pedestrian is a new object.
