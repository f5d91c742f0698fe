/** The values the activity-file pipeline passes around: per-file statistics as
    stored in the JSON columns, track points, the GeoJSON shapes of RFC 7946,
    and the abstract outputs of the FIT and GPX decoding libraries. */
module ActivityData {
  import opened Wrappers

  /** Python's `int(x)` on a number: truncation toward zero. */
  function Trunc(x: real): (n: int)
    ensures x >= 0.0 ==> 0 <= n && n as real <= x < n as real + 1.0
    ensures x < 0.0 ==> n <= 0 && n as real - 1.0 < x <= n as real
  {
    if x >= 0.0 then x.Floor else -((-x).Floor)
  }

  predicate IsIntegral(x: real) {
    x == x.Floor as real
  }

  /** Python's `v or d` where `v` is a number or `None`: a falsy `v`
      (None or zero) gives `d`. */
  function OrElse(v: Option<real>, d: real): (r: real)
    ensures v.Some? && v.value != 0.0 ==> r == v.value
    ensures v.None? || v.value == 0.0 ==> r == d
  {
    if v.Some? && v.value != 0.0 then v.value else d
  }

  /** `v or 0`: None counts as 0, any number is kept. */
  function OrZero(v: Option<real>): (r: real)
    ensures r == v.GetOr(0.0)
  {
    OrElse(v, 0.0)
  }

  // ---------------------------------------------------------------------
  // Statistics dictionaries

  /** The eight keys of a stats dictionary. */
  datatype StatKey =
    | DistanceKm | ElevationGainM | ElevationLossM | ElapsedTimeS
    | MovingTimeS | Calories | AvgSpeedKmh | MaxSpeedKmh

  /** A stats dictionary (non-empty JSON object). Each field is the value
      stored under its key; None when the key is absent or holds null. */
  datatype Stats = Stats(
    distanceKm: Option<real>,
    elevationGainM: Option<real>,
    elevationLossM: Option<real>,
    elapsedTimeS: Option<real>,
    movingTimeS: Option<real>,
    calories: Option<real>,
    avgSpeedKmh: Option<real>,
    maxSpeedKmh: Option<real>)
  {
    /** `stats.get(key)`. */
    function Get(k: StatKey): Option<real> {
      match k
      case DistanceKm => distanceKm
      case ElevationGainM => elevationGainM
      case ElevationLossM => elevationLossM
      case ElapsedTimeS => elapsedTimeS
      case MovingTimeS => movingTimeS
      case Calories => calories
      case AvgSpeedKmh => avgSpeedKmh
      case MaxSpeedKmh => maxSpeedKmh
    }

    /** Every key holds a number (what both parsers and the aggregator write,
        except that GPX leaves calories null). */
    predicate Complete() {
      && distanceKm.Some? && elevationGainM.Some? && elevationLossM.Some?
      && elapsedTimeS.Some? && movingTimeS.Some? && calories.Some?
      && avgSpeedKmh.Some? && maxSpeedKmh.Some?
    }
  }

  // ---------------------------------------------------------------------
  // Track points and GeoJSON (RFC 7946)

  /** One `[lon, lat, elevation]` coordinate triple. */
  datatype Point = Point(lon: real, lat: real, elevation: real)

  /** A GeoJSON geometry object (RFC 7946, section 3.1): its "type" member
      and its "coordinates" member. */
  datatype Geometry = Geometry(kind: string, coordinates: seq<Point>)

  /** A GeoJSON Feature object (RFC 7946, section 3.2). */
  datatype Feature = Feature(kind: string, geometry: Geometry, properties: map<string, string>)

  /** A GeoJSON FeatureCollection object (RFC 7946, section 3.3). */
  datatype FeatureCollection = FeatureCollection(kind: string, features: seq<Feature>)

  /** The result both parsers return: `{'stats': ..., 'gps_points': ...}`. */
  datatype Parsed = Parsed(stats: Stats, points: seq<Point>)

  // ---------------------------------------------------------------------
  // Decoded FIT messages, as the fitdecode reader yields them

  /** One field of a data message; its value may itself be None. */
  datatype FitField = FitField(name: string, value: Option<real>)

  /** A frame yielded by the FIT reader: a data message with a name and its
      fields, or any other frame (header, definition message, CRC). */
  datatype Frame =
    | DataMessage(name: string, fields: seq<FitField>)
    | OtherFrame

  // ---------------------------------------------------------------------
  // A parsed GPX document, as gpxpy builds it

  datatype GpxPoint = GpxPoint(latitude: real, longitude: real, elevation: Option<real>)
  datatype Segment = Segment(points: seq<GpxPoint>)

  /** A track; `duration` is what `track.get_duration()` returns (None when
      the points carry no timestamps). */
  datatype Track = Track(segments: seq<Segment>, duration: Option<real>)

  /** `gpx.get_moving_data()` and `gpx.get_uphill_downhill()` are library
      algorithms; the document carries their results. */
  datatype MovingData = MovingData(movingTime: real, movingDistance: real)
  datatype UphillDownhill = UphillDownhill(uphill: real, downhill: real)

  datatype GpxDocument = GpxDocument(
    tracks: seq<Track>,
    movingData: Option<MovingData>,
    uphillDownhill: Option<UphillDownhill>)

  // ---------------------------------------------------------------------
  // Raw file content

  /** Why parsing a file fails: the stored blob cannot be opened or read, or
      the decoding library rejects its bytes (bad FIT structure, bad UTF-8,
      bad XML). */
  datatype ParseError = UnreadableSource | MalformedTrackData

  /** The content of an uploaded file, abstracted to what the decoding
      libraries make of its bytes: whether it can be read at all, the frames
      the FIT reader yields (or its failure) and the document the GPX parser
      builds (or its failure). */
  datatype Blob = Blob(
    readable: bool,
    asFit: Result<seq<Frame>, ParseError>,
    asGpx: Result<GpxDocument, ParseError>)

  /** An abstract instant, as `timezone.now()` returns. */
  type Timestamp = int
}
