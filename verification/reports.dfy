/**
 * The rescue report record (`RescueReport` in models/rescue_report.py) and
 * the coordinate pairs the clustering works on.
 */
module Reports {
  import opened Wrappers

  /** A (latitude, longitude) pair in degrees. */
  datatype Coord = Coord(lat: real, lng: real)

  /**
   * One submitted report. The timestamp is kept only as an integer, for the
   * dashboard's sort key; `incidentId` is the label assigned by clustering.
   */
  datatype Report = Report(
    id: int,
    lat: real,
    lng: real,
    disasterType: string,
    needs: seq<string>,
    priority: int,
    title: string,
    description: Option<string>,
    isVerified: bool,
    incidentId: Option<string>,
    timestamp: int)

  /** The coordinate list handed to the estimator and to K-Means, in report order. */
  function Coordinates(reports: seq<Report>): (cs: seq<Coord>)
    ensures |cs| == |reports|
    ensures forall i :: 0 <= i < |reports| ==> cs[i] == Coord(reports[i].lat, reports[i].lng)
  {
    seq(|reports|, i requires 0 <= i < |reports| => Coord(reports[i].lat, reports[i].lng))
  }
}
