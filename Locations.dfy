/** Values shared by the whole model: an optional value (the source's
    nullable references) and a latitude/longitude pair. */
module Locations {

  /** A value that may be absent; `None` stands for a Java `null`. */
  datatype Option<+T> = None | Some(value: T)

  /** The latitude and longitude of an android Location, in degrees.
      Altitude, time and accuracy are carried by the Location object but
      never read by the navigation logic, so they are not modelled. */
  datatype Coord = Coord(lat: real, long: real)
}
