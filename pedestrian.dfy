/**
 * A tracked pedestrian. Only the fields the scheduler and the tracking loop read and write
 * are modelled: identity, box, the side whose crossing it closes, and the start of its crossing.
 */
module Pedestrians {
  import opened Geometry
  import opened Layout

  class Pedestrian {
    const id: string
    var contour: Rect
    var direction: Side
    var startTime: real

    constructor (id: string)
      ensures this.id == id
      ensures contour == Rect(0, 0, 0, 0) && direction == Bottom && startTime == 0.0
    {
      this.id := id;
      contour := Rect(0, 0, 0, 0);
      direction := Bottom;
      startTime := 0.0;
    }
  }
}
