/**
 * Static configuration of the intersection: sides, lane corridors, the turn table
 * (`LANE_MAPPINGS`, queuing.py) and the painted lines seen by the ceiling camera
 * (`boundary_lines`, `stop_lines`, `lanes`, main.py). The source names a corridor by a
 * string `<side>-<orientation>`; here it is a pair, so `lane.split('-')[0]` is `lane.side`.
 */
module Layout {
  import opened Geometry

  datatype Side = Top | Bottom | Left | Right

  /** `forward` corridors lead into the intersection, `backward` corridors lead out of it. */
  datatype Orientation = Forward | Backward

  datatype Lane = Lane(side: Side, orientation: Orientation)

  /** A vehicle's lane fix: the string `'Undefined'` or the name of a corridor. */
  datatype LaneFix = Undefined | At(lane: Lane)

  /** The maneuvers a car can be told to make: the strings 'forward', 'left' and 'right'. */
  datatype Maneuver = Straight | LeftTurn | RightTurn

  /** The string the source uses for a maneuver. */
  function ManeuverName(m: Maneuver): string {
    match m
    case Straight => "forward"
    case LeftTurn => "left"
    case RightTurn => "right"
  }

  /** `LANE_MAPPINGS[side][direction]`: the corridor a car entering from `side` ends up in. */
  function TurnTarget(side: Side, m: Maneuver): (target: Lane)
    ensures target.orientation == Backward && target.side != side
  {
    match side
    case Top =>
      (match m
       case Straight => Lane(Bottom, Backward)
       case RightTurn => Lane(Left, Backward)
       case LeftTurn => Lane(Right, Backward))
    case Bottom =>
      (match m
       case Straight => Lane(Top, Backward)
       case RightTurn => Lane(Right, Backward)
       case LeftTurn => Lane(Left, Backward))
    case Right =>
      (match m
       case Straight => Lane(Left, Backward)
       case RightTurn => Lane(Top, Backward)
       case LeftTurn => Lane(Bottom, Backward))
    case Left =>
      (match m
       case Straight => Lane(Right, Backward)
       case RightTurn => Lane(Bottom, Backward)
       case LeftTurn => Lane(Top, Backward)
    )
  }

  /** The three maneuvers from one side lead to three different sides. */
  lemma ManeuversReachDifferentSides(side: Side, m: Maneuver, m': Maneuver)
    ensures m != m' ==> TurnTarget(side, m).side != TurnTarget(side, m').side
  {
  }

  /** `boundary_lines`: the painted lines of the intersection, in the source's order. */
  const BoundaryLines: seq<Segment> := [
    // octagon
    Segment(Point(322, 97), Point(379, 191)),
    Segment(Point(375, 384), Point(325, 470)),
    Segment(Point(168, 378), Point(217, 470)),
    Segment(Point(219, 97), Point(170, 187)),
    // top lane
    Segment(Point(221, 0), Point(220, 97)),
    Segment(Point(274, 0), Point(273, 94)),
    Segment(Point(327, 0), Point(323, 93)),
    // bottom lane
    Segment(Point(217, 474), Point(215, 613)),
    Segment(Point(271, 476), Point(268, 613)),
    Segment(Point(324, 476), Point(322, 613)),
    // right lane
    Segment(Point(380, 192), Point(589, 194)),
    Segment(Point(379, 289), Point(591, 291)),
    Segment(Point(377, 383), Point(589, 392)),
    // left lane
    Segment(Point(27, 184), Point(168, 185)),
    Segment(Point(23, 279), Point(167, 284)),
    Segment(Point(23, 370), Point(167, 379)),
    // other lines
    Segment(Point(30, 13), Point(221, 8)),
    Segment(Point(325, 8), Point(589, 8)),
    Segment(Point(30, 13), Point(16, 615)),
    Segment(Point(589, 8), Point(588, 613)),
    Segment(Point(16, 615), Point(588, 613))
  ]

  /** `stop_lines`, in the dictionary's order: top, bottom, right, left. */
  const StopLines: seq<Segment> := [
    Segment(Point(218, 95), Point(324, 95)),
    Segment(Point(216, 474), Point(325, 475)),
    Segment(Point(380, 192), Point(376, 384)),
    Segment(Point(168, 185), Point(168, 378))
  ]

  /** Stop lines sit where the corridors meet the middle of the intersection: a box straddling
      the top stop line touches one, and a box further up the top corridor touches none. */
  lemma {:induction false} StopLinesAtTheEntrances()
    ensures HitsStopLine(StopLines, Rect(250, 80, 30, 30))
    ensures !HitsStopLine(StopLines, Rect(280, 10, 20, 30))
  {
    assert SegmentsIntersect(StopLines[0], RectSides(Rect(250, 80, 30, 30))[1]);
    var far := Rect(280, 10, 20, 30);
    forall k | 0 <= k < |StopLines| ensures !SegmentIntersectsRect(StopLines[k], far) {
      var sides := RectSides(far);
      assert !SegmentsIntersect(StopLines[k], sides[0]) && !SegmentsIntersect(StopLines[k], sides[1]);
      assert !SegmentsIntersect(StopLines[k], sides[2]) && !SegmentsIntersect(StopLines[k], sides[3]);
    }
  }

  /** A lane corridor: its name and the two corners of its box. */
  datatype Corridor = Corridor(name: Lane, corner: Point, farCorner: Point)

  /** `lanes`: each corridor's box spans from an end of one painted line to an end of the next,
      in the dictionary's order. */
  const Lanes: seq<Corridor> := [
    Corridor(Lane(Top, Backward), BoundaryLines[5].a, BoundaryLines[6].b),
    Corridor(Lane(Top, Forward), BoundaryLines[4].a, BoundaryLines[5].b),
    Corridor(Lane(Bottom, Backward), BoundaryLines[7].a, BoundaryLines[8].b),
    Corridor(Lane(Bottom, Forward), BoundaryLines[8].a, BoundaryLines[9].b),
    Corridor(Lane(Right, Backward), BoundaryLines[11].a, BoundaryLines[12].b),
    Corridor(Lane(Right, Forward), BoundaryLines[10].a, BoundaryLines[11].b),
    Corridor(Lane(Left, Backward), BoundaryLines[13].a, BoundaryLines[14].b),
    Corridor(Lane(Left, Forward), BoundaryLines[14].a, BoundaryLines[15].b)
  ]

  /** The corridors with their corners written out. */
  lemma LanesCorners()
    ensures Lanes == [
      Corridor(Lane(Top, Backward), Point(274, 0), Point(323, 93)),
      Corridor(Lane(Top, Forward), Point(221, 0), Point(273, 94)),
      Corridor(Lane(Bottom, Backward), Point(217, 474), Point(268, 613)),
      Corridor(Lane(Bottom, Forward), Point(271, 476), Point(322, 613)),
      Corridor(Lane(Right, Backward), Point(379, 289), Point(589, 392)),
      Corridor(Lane(Right, Forward), Point(380, 192), Point(591, 291)),
      Corridor(Lane(Left, Backward), Point(27, 184), Point(167, 284)),
      Corridor(Lane(Left, Forward), Point(23, 279), Point(167, 379))
    ]
  {
  }

  /** Every corridor's box is well formed and the eight names are distinct. */
  lemma CorridorsWellFormed()
    ensures |Lanes| == 8
    ensures forall k :: 0 <= k < |Lanes| ==>
      Lanes[k].corner.x <= Lanes[k].farCorner.x && Lanes[k].corner.y <= Lanes[k].farCorner.y
    ensures forall j, k :: 0 <= j < k < |Lanes| ==> Lanes[j].name != Lanes[k].name
  {
  }
}
