/**
 * The decoded GTFS-realtime feed message, as the dicts produced by
 * protobuf's MessageToDict are read by the rest of the program.
 * Only the fields the program reads are kept.
 */
module Feed {
  import opened Wrappers

  type StopId = string
  type RouteId = string

  /** Feed metadata; the program only copies it. */
  datatype Header = Header(gtfsRealtimeVersion: string, timestamp: int)

  /** `vehicle`: `trip.routeId` and the optional current `stopId`. */
  datatype VehiclePosition = VehiclePosition(routeId: RouteId, stopId: Option<StopId>)

  /** One entry of `stopTimeUpdate`: its `stopId` and, when present, `arrival.time`. */
  datatype StopTimeUpdate = StopTimeUpdate(stopId: StopId, arrival: Option<int>)

  /**
   * `tripUpdate`: `trip.routeId` and `stopTimeUpdate`. MessageToDict leaves out
   * an empty repeated field, so the empty sequence stands for an absent key.
   */
  datatype TripUpdate = TripUpdate(routeId: RouteId, stopTimeUpdates: seq<StopTimeUpdate>)

  /** One element of `entity`: either payload may be absent. */
  datatype Entity = Entity(id: string, vehicle: Option<VehiclePosition>, tripUpdate: Option<TripUpdate>)

  /** `{'header': ..., 'entity': [...]}` */
  datatype FeedMessage = FeedMessage(header: Header, entities: seq<Entity>)
}
