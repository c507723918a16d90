/** Points on the map, as the backend and the client both pass them around. */
module Geo {
  /** `{ latitude, longitude }` in degrees. */
  datatype Coord = Coord(latitude: real, longitude: real)
}
