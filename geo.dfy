/** The coordinates a region carries; the monitor never looks inside them. */
module Geo {
  import opened Wrappers

  /**
   * The number `parseFloat` returns for a CSV field (`None` is an absent
   * field, for which it returns NaN). Float parsing is not modelled: the
   * value is identified by the text it was parsed from.
   */
  datatype Float = ParsedFloat(field: Option<string>)

  /** `[longitude, latitude]`. */
  datatype Coordinates = Coordinates(longitude: Float, latitude: Float)
}
