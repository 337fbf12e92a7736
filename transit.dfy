/** The trip-planner's itinerary schema as the display code reads it, and the
    saved station pair of the home page. Timestamps are instants in integer
    milliseconds; fields the planner may omit are options. */
module Transit {
  import opened Js

  /** An instant, in milliseconds since the epoch. */
  type Timestamp = int

  /** One end of a leg: a stop, with the real-time and the scheduled platform. */
  datatype StationPoint = StationPoint(
    name: string,
    track: Option<string>,
    scheduledTrack: Option<string>)

  /** One movement of a trip. `mode` is the planner's mode identifier
      ("WALK", "BUS", "HIGHSPEED_RAIL", ...); `duration` is in seconds. */
  datatype Leg = Leg(
    mode: string,
    duration: int,
    displayName: Option<string>,
    tripShortName: Option<string>,
    from: StationPoint,
    to: StationPoint,
    startTime: Timestamp,
    endTime: Timestamp,
    scheduledStartTime: Option<Timestamp>,
    scheduledEndTime: Option<Timestamp>)

  /** One complete trip plan; `duration` is in seconds. */
  datatype Itinerary = Itinerary(
    startTime: Timestamp,
    endTime: Timestamp,
    duration: int,
    transfers: int,
    legs: seq<Leg>)

  /** An identified station. */
  datatype Place = Place(name: string, id: string)

  const Walk := "WALK"

  predicate IsWalk(leg: Leg) {
    leg.mode == Walk
  }
}
