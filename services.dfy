/** The activity-file pipeline: FIT and GPX parsing into points and
    statistics, GeoJSON construction, aggregation of per-file statistics,
    and the run that processes every file of an adventure page. */
module Services {
  import opened Wrappers
  import opened ActivityData
  import opened Models

  // =====================================================================
  // FIT parsing

  /** FIT positions are signed 32-bit "semicircles": 2^31 of them make 180
      degrees. */
  function SemicirclesToDegrees(semicircles: real): (degrees: real)
    ensures -2147483648.0 <= semicircles <= 2147483648.0 ==> -180.0 <= degrees <= 180.0
    ensures semicircles < 0.0 <==> degrees < 0.0
  {
    semicircles * (180.0 / 2147483648.0)
  }

  lemma SemicirclesLinear(a: real, b: real, c: real)
    ensures SemicirclesToDegrees(a + b) == SemicirclesToDegrees(a) + SemicirclesToDegrees(b)
    ensures SemicirclesToDegrees(c * a) == c * SemicirclesToDegrees(a)
    ensures SemicirclesToDegrees(0.0) == 0.0
    ensures SemicirclesToDegrees(2147483648.0) == 180.0
    ensures SemicirclesToDegrees(-2147483648.0) == -180.0
  {
  }

  /** `_get_fit_field`: scans the fields in order and stops at the first
      one called `name`. */
  function GetFitField(fields: seq<FitField>, name: string): Option<real> {
    if fields == [] then None
    else if fields[0].name == name then fields[0].value
    else GetFitField(fields[1..], name)
  }

  /** No field before position `i` is called `name`. */
  predicate FirstNamed(fields: seq<FitField>, name: string, i: int)
    requires 0 <= i <= |fields|
  {
    forall j :: 0 <= j < i ==> fields[j].name != name
  }

  /** The lookup yields the value of the first field called `name`, and None
      when no field is. */
  lemma {:induction false} GetFitFieldFirstMatch(fields: seq<FitField>, name: string)
    ensures FirstNamed(fields, name, |fields|) ==> GetFitField(fields, name).None?
    ensures forall i :: 0 <= i < |fields| && fields[i].name == name && FirstNamed(fields, name, i) ==>
      GetFitField(fields, name) == fields[i].value
  {
    if fields != [] {
      GetFitFieldFirstMatch(fields[1..], name);
      if fields[0].name != name {
        assert FirstNamed(fields, name, |fields|) ==> FirstNamed(fields[1..], name, |fields| - 1);
        forall i | 0 <= i < |fields| && fields[i].name == name && FirstNamed(fields, name, i)
          ensures GetFitField(fields, name) == fields[i].value
        {
          assert FirstNamed(fields[1..], name, i - 1);
        }
      }
    }
  }

  predicate IsRecord(frame: Frame) {
    frame.DataMessage? && frame.name == "record"
  }

  predicate IsSession(frame: Frame) {
    frame.DataMessage? && frame.name == "session"
  }

  function Field(frame: Frame, name: string): Option<real> {
    if frame.DataMessage? then GetFitField(frame.fields, name) else None
  }

  /** Elevation of a record: `enhanced_altitude` when present (zero
      included), else `altitude`, else 0. */
  function RecordElevation(frame: Frame): (e: real)
    ensures Field(frame, "enhanced_altitude").Some? ==> e == Field(frame, "enhanced_altitude").value
    ensures Field(frame, "enhanced_altitude").None? ==> e == Field(frame, "altitude").GetOr(0.0)
  {
    var enhanced := Field(frame, "enhanced_altitude");
    if enhanced.Some? then enhanced.value else OrElse(Field(frame, "altitude"), 0.0)
  }

  /** The point a frame contributes: one for a record with both
      coordinates, none otherwise. */
  function FramePoints(frame: Frame): (pts: seq<Point>)
    ensures |pts| <= 1
    ensures |pts| == 1 <==>
      IsRecord(frame) && Field(frame, "position_lat").Some? && Field(frame, "position_long").Some?
    ensures |pts| == 1 ==> pts[0] == Point(
      SemicirclesToDegrees(Field(frame, "position_long").value),
      SemicirclesToDegrees(Field(frame, "position_lat").value),
      RecordElevation(frame))
  {
    if !IsRecord(frame) then []
    else
      var lat := Field(frame, "position_lat");
      var lon := Field(frame, "position_long");
      if lat.None? || lon.None? then []
      else [Point(SemicirclesToDegrees(lon.value), SemicirclesToDegrees(lat.value), RecordElevation(frame))]
  }

  /** The points of a frame sequence, in frame order. */
  function FitPoints(frames: seq<Frame>): (pts: seq<Point>)
    ensures |pts| <= |frames|
  {
    if frames == [] then []
    else FitPoints(frames[..|frames| - 1]) + FramePoints(frames[|frames| - 1])
  }

  /** The last session frame, if any. */
  function LastSession(frames: seq<Frame>): (s: Option<Frame>)
    ensures s.Some? ==> IsSession(s.value) && s.value in frames
    ensures s.None? ==> forall i :: 0 <= i < |frames| ==> !IsSession(frames[i])
  {
    if frames == [] then None
    else if IsSession(frames[|frames| - 1]) then Some(frames[|frames| - 1])
    else
      var s := LastSession(frames[..|frames| - 1]);
      assert s.Some? ==> s.value in frames[..|frames| - 1];
      s
  }

  /** Speeds above 22.2 m/s (80 km/h) are GPS artifacts. */
  const MaxPlausibleSpeed: real := 22.2

  /** The statistics of a session frame. */
  function SessionStats(frame: Frame): (st: Stats)
    ensures st.Complete()
    ensures var elapsed := OrElse(Field(frame, "total_elapsed_time"), 0.0);
      && st.elapsedTimeS == Some(elapsed)
      && st.movingTimeS == Some(OrElse(Field(frame, "total_timer_time"), elapsed))
    ensures var raw := OrZero(Field(frame, "max_speed"));
      st.maxSpeedKmh == Some(if raw > MaxPlausibleSpeed then 0.0 else raw * 3.6)
    ensures st.distanceKm == Some(OrZero(Field(frame, "total_distance")) / 1000.0)
    ensures st.avgSpeedKmh == Some(OrZero(Field(frame, "avg_speed")) * 3.6)
    ensures st.calories == Some(Trunc(OrZero(Field(frame, "total_calories"))) as real)
    ensures st.elevationGainM == Some(Trunc(OrZero(Field(frame, "total_ascent"))) as real)
    ensures st.elevationLossM == Some(Trunc(OrZero(Field(frame, "total_descent"))) as real)
    ensures IsIntegral(st.elevationGainM.value) && IsIntegral(st.elevationLossM.value)
    ensures IsIntegral(st.calories.value)
  {
    var elapsed := OrElse(Field(frame, "total_elapsed_time"), 0.0);
    var moving := OrElse(Field(frame, "total_timer_time"), elapsed);
    var maxSpeed := OrElse(Field(frame, "max_speed"), 0.0);
    var maxSpeed := if maxSpeed > MaxPlausibleSpeed then 0.0 else maxSpeed;
    Stats(
      Some(OrZero(Field(frame, "total_distance")) / 1000.0),
      Some(Trunc(OrZero(Field(frame, "total_ascent"))) as real),
      Some(Trunc(OrZero(Field(frame, "total_descent"))) as real),
      Some(elapsed),
      Some(moving),
      Some(Trunc(OrZero(Field(frame, "total_calories"))) as real),
      Some(OrZero(Field(frame, "avg_speed")) * 3.6),
      Some(maxSpeed * 3.6))
  }

  /** The statistics of a file with no session frame: every key 0,
      calories included. */
  const ZeroStats: Stats := Stats(Some(0.0), Some(0.0), Some(0.0), Some(0.0), Some(0.0), Some(0.0), Some(0.0), Some(0.0))

  /** The stats of the last session frame among `frames`, if any. */
  function LastSessionStats(frames: seq<Frame>): (st: Option<Stats>)
    ensures st.None? <==> LastSession(frames).None?
    ensures st.Some? ==> st.value == SessionStats(LastSession(frames).value)
  {
    match LastSession(frames)
    case Some(s) => Some(SessionStats(s))
    case None => None
  }

  /** The statistics `parse_fit_file` reports: the last session's, or all
      zeros. */
  function FitStats(frames: seq<Frame>): (st: Stats)
    ensures st.Complete()
    ensures IsIntegral(st.elevationGainM.value) && IsIntegral(st.elevationLossM.value)
    ensures IsIntegral(st.calories.value)
    ensures LastSession(frames).None? ==> st == ZeroStats
  {
    LastSessionStats(frames).GetOr(ZeroStats)
  }

  /** What `parse_fit_file` returns for the frames of a file. */
  function FitParse(frames: seq<Frame>): (p: Parsed)
    ensures p.stats.Complete() && |p.points| <= |frames|
    ensures LastSession(frames).Some? ==> p.stats == SessionStats(LastSession(frames).value)
    ensures LastSession(frames).None? ==> p.stats == ZeroStats
    ensures p.points == FitPoints(frames)
  {
    Parsed(FitStats(frames), FitPoints(frames))
  }

  /** One more frame of the FIT parser's loop. */
  lemma FitFrameStep(frames: seq<Frame>, i: nat)
    requires i < |frames|
    ensures FitPoints(frames[..i + 1]) == FitPoints(frames[..i]) + FramePoints(frames[i])
    ensures LastSessionStats(frames[..i + 1]) ==
      if IsSession(frames[i]) then Some(SessionStats(frames[i])) else LastSessionStats(frames[..i])
  {
    assert frames[..i + 1][..i] == frames[..i];
  }

  /** The body of the FIT parser's loop for one frame: a record frame with
      both coordinates adds its point, a session frame replaces the session
      stats, and any other frame is skipped. */
  method ParseFrame(frame: Frame, gpsPoints: seq<Point>, sessionStats: Option<Stats>)
    returns (gpsPoints': seq<Point>, sessionStats': Option<Stats>)
    ensures gpsPoints' == gpsPoints + FramePoints(frame)
    ensures sessionStats' == if IsSession(frame) then Some(SessionStats(frame)) else sessionStats
  {
    gpsPoints', sessionStats' := gpsPoints, sessionStats;
    if frame.DataMessage? {
      if frame.name == "record" {
        var lat := GetFitField(frame.fields, "position_lat");
        var lon := GetFitField(frame.fields, "position_long");
        if lat.Some? && lon.Some? {
          var elevation := GetFitField(frame.fields, "enhanced_altitude");
          if elevation.None? {
            elevation := Some(OrElse(GetFitField(frame.fields, "altitude"), 0.0));
          }
          gpsPoints' := gpsPoints + [Point(SemicirclesToDegrees(lon.value), SemicirclesToDegrees(lat.value), elevation.value)];
        }
      } else if frame.name == "session" {
        sessionStats' := Some(SessionStats(frame));
      }
    }
  }

  /** `parse_fit_file` over the frames the FIT reader yields. */
  method ParseFitFrames(frames: seq<Frame>) returns (result: Parsed)
    ensures result == FitParse(frames)
  {
    var gpsPoints: seq<Point> := [];
    var sessionStats: Option<Stats> := None;
    var i := 0;
    while i < |frames|
      invariant 0 <= i <= |frames|
      invariant gpsPoints == FitPoints(frames[..i])
      invariant sessionStats == LastSessionStats(frames[..i])
    {
      FitFrameStep(frames, i);
      gpsPoints, sessionStats := ParseFrame(frames[i], gpsPoints, sessionStats);
      i := i + 1;
    }
    assert frames[..i] == frames;
    if sessionStats.None? {
      sessionStats := Some(ZeroStats);
    }
    result := Parsed(sessionStats.value, gpsPoints);
  }

  /** Frames contribute their points independently and in order. */
  lemma {:induction false} FitPointsAppend(a: seq<Frame>, b: seq<Frame>)
    ensures FitPoints(a + b) == FitPoints(a) + FitPoints(b)
    decreases |b|
  {
    if b == [] {
      assert a + b == a;
    } else {
      var b' := b[..|b| - 1];
      assert (a + b)[..|a + b| - 1] == a + b';
      assert (a + b)[|a + b| - 1] == b[|b| - 1];
      FitPointsAppend(a, b');
    }
  }

  /** Non-data frames, other messages and records missing a coordinate add
      no point; every other record adds exactly its point. */
  lemma {:induction false} FitPointsOfOneFrame(frames: seq<Frame>, frame: Frame)
    ensures FitPoints(frames + [frame]) == FitPoints(frames) + FramePoints(frame)
    ensures !IsRecord(frame) ==> FitPoints(frames + [frame]) == FitPoints(frames)
    ensures Field(frame, "position_lat").None? || Field(frame, "position_long").None? ==>
      FitPoints(frames + [frame]) == FitPoints(frames)
  {
    assert (frames + [frame])[..|frames|] == frames;
  }

  /** The last session frame decides the statistics, whatever came before. */
  lemma {:induction false} LastSessionWins(a: seq<Frame>, s: Frame, b: seq<Frame>)
    requires IsSession(s)
    requires forall i :: 0 <= i < |b| ==> !IsSession(b[i])
    ensures FitStats(a + [s] + b) == SessionStats(s)
    decreases |b|
  {
    if b == [] {
      assert a + [s] + b == a + [s];
    } else {
      var b' := b[..|b| - 1];
      assert (a + [s] + b)[..|a + [s] + b| - 1] == a + [s] + b';
      LastSessionWins(a, s, b');
    }
  }

  /** Without a session frame every statistic is 0, calories too. */
  lemma {:induction false} NoSessionAllZero(frames: seq<Frame>)
    requires forall i :: 0 <= i < |frames| ==> !IsSession(frames[i])
    ensures forall k: StatKey :: FitStats(frames).Get(k) == Some(0.0)
  {
  }

  lemma MaxSpeedClampExamples(slow: Frame, fast: Frame)
    requires IsSession(slow) && Field(slow, "max_speed") == Some(10.0)
    requires IsSession(fast) && Field(fast, "max_speed") == Some(25.0)
    ensures SessionStats(slow).maxSpeedKmh == Some(36.0)
    ensures SessionStats(fast).maxSpeedKmh == Some(0.0)
  {
  }

  // =====================================================================
  // GPX parsing

  /** The coordinate triple of a GPX point; a missing elevation is 0. */
  function GpxCoordinates(p: GpxPoint): (pt: Point)
    ensures pt.lon == p.longitude && pt.lat == p.latitude
    ensures pt.elevation == p.elevation.GetOr(0.0)
  {
    Point(p.longitude, p.latitude, OrZero(p.elevation))
  }

  function GpxCoordinatesAll(ps: seq<GpxPoint>): (pts: seq<Point>)
    ensures |pts| == |ps| && forall i :: 0 <= i < |ps| ==> pts[i] == GpxCoordinates(ps[i])
  {
    seq(|ps|, i requires 0 <= i < |ps| => GpxCoordinates(ps[i]))
  }

  /** The points of some segments, in document order. */
  function SegmentsPoints(segments: seq<Segment>): (ps: seq<GpxPoint>)
  {
    if segments == [] then []
    else SegmentsPoints(segments[..|segments| - 1]) + segments[|segments| - 1].points
  }

  /** The points of some tracks, in document order. */
  function TracksPoints(tracks: seq<Track>): (ps: seq<GpxPoint>)
  {
    if tracks == [] then []
    else TracksPoints(tracks[..|tracks| - 1]) + SegmentsPoints(tracks[|tracks| - 1].segments)
  }

  /** Elapsed time: the sum of the durations of the tracks whose duration is
      truthy (present and non-zero). */
  function ElapsedTime(tracks: seq<Track>): (e: real)
    ensures (forall t :: 0 <= t < |tracks| ==> tracks[t].duration.GetOr(0.0) >= 0.0) ==> e >= 0.0
  {
    if tracks == [] then 0.0
    else
      var td := tracks[|tracks| - 1].duration;
      ElapsedTime(tracks[..|tracks| - 1]) + (if td.Some? && td.value != 0.0 then td.value else 0.0)
  }

  function GpxStats(doc: GpxDocument): (st: Stats)
    ensures st.calories.None? && st.maxSpeedKmh == Some(0.0)
    ensures st.elapsedTimeS == Some(ElapsedTime(doc.tracks))
    ensures st.distanceKm.Some? && st.movingTimeS.Some?
    ensures st.movingTimeS.value <= 0.0 ==> st.avgSpeedKmh == Some(0.0)
    ensures st.movingTimeS.value > 0.0 ==> st.avgSpeedKmh == Some(st.distanceKm.value / st.movingTimeS.value * 3600.0)
    ensures doc.movingData.None? ==> st.distanceKm == Some(0.0) && st.movingTimeS == Some(0.0)
    ensures doc.movingData.Some? ==>
      st.distanceKm == Some(doc.movingData.value.movingDistance / 1000.0)
      && st.movingTimeS == Some(doc.movingData.value.movingTime)
    ensures doc.uphillDownhill.Some? ==>
      st.elevationGainM == Some(Trunc(doc.uphillDownhill.value.uphill) as real)
      && st.elevationLossM == Some(Trunc(doc.uphillDownhill.value.downhill) as real)
    ensures doc.uphillDownhill.None? ==> st.elevationGainM == Some(0.0) && st.elevationLossM == Some(0.0)
  {
    var distanceKm := (if doc.movingData.Some? then doc.movingData.value.movingDistance else 0.0) / 1000.0;
    var movingTimeS := if doc.movingData.Some? then doc.movingData.value.movingTime else 0.0;
    var avgSpeedKmh := if movingTimeS > 0.0 then distanceKm / movingTimeS * 3600.0 else 0.0;
    Stats(
      Some(distanceKm),
      Some(Trunc(if doc.uphillDownhill.Some? then doc.uphillDownhill.value.uphill else 0.0) as real),
      Some(Trunc(if doc.uphillDownhill.Some? then doc.uphillDownhill.value.downhill else 0.0) as real),
      Some(ElapsedTime(doc.tracks)),
      Some(movingTimeS),
      None,
      Some(avgSpeedKmh),
      Some(0.0))
  }

  /** What `parse_gpx_file` returns for a parsed document. */
  function GpxParse(doc: GpxDocument): (p: Parsed)
    ensures var pts := TracksPoints(doc.tracks);
      |p.points| == |pts| && forall i :: 0 <= i < |pts| ==> p.points[i] == GpxCoordinates(pts[i])
    ensures p.stats == GpxStats(doc)
    ensures p.stats.calories.None? && p.stats.elapsedTimeS == Some(ElapsedTime(doc.tracks))
  {
    Parsed(GpxStats(doc), GpxCoordinatesAll(TracksPoints(doc.tracks)))
  }

  /** The triple loop of `parse_gpx_file`: one coordinate triple per point,
      walking tracks, then segments, then points. */
  method CollectGpxPoints(tracks: seq<Track>) returns (gpsPoints: seq<Point>)
    ensures gpsPoints == GpxCoordinatesAll(TracksPoints(tracks))
  {
    gpsPoints := [];
    var t := 0;
    while t < |tracks|
      invariant 0 <= t <= |tracks|
      invariant gpsPoints == GpxCoordinatesAll(TracksPoints(tracks[..t]))
    {
      assert tracks[..t + 1][..t] == tracks[..t];
      GpxCoordinatesAllAppend(TracksPoints(tracks[..t]), SegmentsPoints(tracks[t].segments));
      gpsPoints := CollectSegmentPoints(gpsPoints, tracks[t].segments);
      t := t + 1;
    }
    assert tracks[..t] == tracks;
  }

  /** The segment loop of the GPX parser: appends the coordinates of the
      points of `segments`, in order, to `acc`. */
  method CollectSegmentPoints(acc: seq<Point>, segments: seq<Segment>) returns (gpsPoints: seq<Point>)
    ensures gpsPoints == acc + GpxCoordinatesAll(SegmentsPoints(segments))
  {
    gpsPoints := acc;
    var s := 0;
    while s < |segments|
      invariant 0 <= s <= |segments|
      invariant gpsPoints == acc + GpxCoordinatesAll(SegmentsPoints(segments[..s]))
    {
      assert segments[..s + 1][..s] == segments[..s];
      GpxCoordinatesAllAppend(SegmentsPoints(segments[..s]), segments[s].points);
      gpsPoints := AppendGpxPoints(gpsPoints, segments[s].points);
      s := s + 1;
    }
    assert segments[..s] == segments;
  }

  /** The point loop of the GPX parser: appends the coordinates of
      `points`, in order, to `acc`. */
  method AppendGpxPoints(acc: seq<Point>, points: seq<GpxPoint>) returns (gpsPoints: seq<Point>)
    ensures gpsPoints == acc + GpxCoordinatesAll(points)
  {
    gpsPoints := acc;
    var p := 0;
    while p < |points|
      invariant 0 <= p <= |points|
      invariant |gpsPoints| == |acc| + p
      invariant gpsPoints[..|acc|] == acc
      invariant forall j :: 0 <= j < p ==> gpsPoints[|acc| + j] == GpxCoordinates(points[j])
    {
      var point := points[p];
      gpsPoints := gpsPoints + [Point(point.longitude, point.latitude, OrZero(point.elevation))];
      p := p + 1;
    }
    assert gpsPoints == acc + GpxCoordinatesAll(points);
  }

  /** Coordinates distribute over concatenated point lists. */
  lemma GpxCoordinatesAllAppend(a: seq<GpxPoint>, b: seq<GpxPoint>)
    ensures GpxCoordinatesAll(a + b) == GpxCoordinatesAll(a) + GpxCoordinatesAll(b)
  {
    assert forall i :: 0 <= i < |a + b| ==> GpxCoordinatesAll(a + b)[i] == (GpxCoordinatesAll(a) + GpxCoordinatesAll(b))[i];
  }


  /** `parse_gpx_file` over the document gpxpy builds. */
  method ParseGpxDocument(doc: GpxDocument) returns (result: Parsed)
    ensures result == GpxParse(doc)
  {
    var tracks := doc.tracks;
    var gpsPoints := CollectGpxPoints(tracks);

    var distanceKm := (if doc.movingData.Some? then doc.movingData.value.movingDistance else 0.0) / 1000.0;
    var movingTimeS := if doc.movingData.Some? then doc.movingData.value.movingTime else 0.0;

    var elapsedTimeS := 0.0;
    var k := 0;
    while k < |tracks|
      invariant 0 <= k <= |tracks|
      invariant elapsedTimeS == ElapsedTime(tracks[..k])
    {
      var td := tracks[k].duration;
      if td.Some? && td.value != 0.0 {
        elapsedTimeS := elapsedTimeS + td.value;
      }
      assert tracks[..k + 1][..k] == tracks[..k];
      k := k + 1;
    }
    assert tracks[..k] == tracks;

    var avgSpeedKmh := 0.0;
    if movingTimeS > 0.0 {
      avgSpeedKmh := distanceKm / movingTimeS * 3600.0;
    }

    var stats := Stats(
      Some(distanceKm),
      Some(Trunc(if doc.uphillDownhill.Some? then doc.uphillDownhill.value.uphill else 0.0) as real),
      Some(Trunc(if doc.uphillDownhill.Some? then doc.uphillDownhill.value.downhill else 0.0) as real),
      Some(elapsedTimeS),
      Some(movingTimeS),
      None,
      Some(avgSpeedKmh),
      Some(0.0));
    result := Parsed(stats, gpsPoints);
  }

  /** Tracks contribute their points independently and in document order. */
  lemma {:induction false} TracksPointsAppend(a: seq<Track>, b: seq<Track>)
    ensures TracksPoints(a + b) == TracksPoints(a) + TracksPoints(b)
    decreases |b|
  {
    if b == [] {
      assert a + b == a;
    } else {
      var n := |b| - 1;
      var last := SegmentsPoints(b[n].segments);
      assert (a + b)[..|a + b| - 1] == a + b[..n];
      assert (a + b)[|a + b| - 1] == b[n];
      assert TracksPoints(a + b) == TracksPoints(a + b[..n]) + last;
      TracksPointsAppend(a, b[..n]);
      assert TracksPoints(b) == TracksPoints(b[..n]) + last;
    }
  }

  /** `p` lies in some segment of `segments`. */
  predicate InSomeSegment(segments: seq<Segment>, p: GpxPoint) {
    exists s :: 0 <= s < |segments| && p in segments[s].points
  }

  /** A point is emitted exactly when it belongs to some segment. */
  lemma {:induction false} SegmentsPointsMembers(segments: seq<Segment>, p: GpxPoint)
    ensures p in SegmentsPoints(segments) <==> InSomeSegment(segments, p)
  {
    if segments != [] {
      var n := |segments| - 1;
      SegmentsPointsMembers(segments[..n], p);
      assert SegmentsPoints(segments) == SegmentsPoints(segments[..n]) + segments[n].points;
      InSomeSegmentSplit(segments, p);
    }
  }

  lemma InSomeSegmentSplit(segments: seq<Segment>, p: GpxPoint)
    requires segments != []
    ensures var n := |segments| - 1;
      InSomeSegment(segments, p) <==> InSomeSegment(segments[..n], p) || p in segments[n].points
  {
    var n := |segments| - 1;
    var init := segments[..n];
    if InSomeSegment(segments, p) && p !in segments[n].points {
      var s :| 0 <= s < |segments| && p in segments[s].points;
      assert init[s] == segments[s];
    }
    if InSomeSegment(init, p) {
      var s :| 0 <= s < n && p in init[s].points;
      assert init[s] == segments[s];
    }
  }

  /** No GPX point is skipped and none is invented: a point is among the
      emitted ones exactly when it lies in some segment of some track. */
  lemma {:induction false} TracksPointsMembers(tracks: seq<Track>, p: GpxPoint)
    ensures p in TracksPoints(tracks) <==> exists t :: 0 <= t < |tracks| && InSomeSegment(tracks[t].segments, p)
  {
    if tracks != [] {
      var n := |tracks| - 1;
      TracksPointsMembers(tracks[..n], p);
      SegmentsPointsMembers(tracks[n].segments, p);
      assert TracksPoints(tracks) == TracksPoints(tracks[..n]) + SegmentsPoints(tracks[n].segments);
      if p in TracksPoints(tracks[..n]) {
        var t :| 0 <= t < n && InSomeSegment(tracks[..n][t].segments, p);
        assert tracks[..n][t] == tracks[t];
      }
      if exists t :: 0 <= t < |tracks| && InSomeSegment(tracks[t].segments, p) {
        var t :| 0 <= t < |tracks| && InSomeSegment(tracks[t].segments, p);
        if t < n {
          assert tracks[..n][t] == tracks[t];
        }
      }
    }
  }

  /** Tracks without timestamps (or of zero duration) add nothing, so a
      document without timestamps has elapsed time 0. */
  lemma {:induction false} ElapsedTimeWithoutTimestamps(tracks: seq<Track>)
    requires forall t :: 0 <= t < |tracks| ==> tracks[t].duration.None? || tracks[t].duration == Some(0.0)
    ensures ElapsedTime(tracks) == 0.0
  {
    if tracks != [] {
      ElapsedTimeWithoutTimestamps(tracks[..|tracks| - 1]);
    }
  }

  // =====================================================================
  // GeoJSON (RFC 7946)

  /** A LineString Feature (RFC 7946, sections 3.1.4 and 3.2). */
  predicate IsLineStringFeature(f: Feature) {
    f.kind == "Feature" && f.geometry.kind == "LineString" && f.properties == map[]
  }

  /** `build_geojson_linestring`: the points, unchanged and in order, as the
      coordinates of a LineString Feature with no properties. */
  function BuildGeojsonLineString(gpsPoints: seq<Point>): (f: Feature)
    ensures IsLineStringFeature(f)
    ensures f.geometry.coordinates == gpsPoints
  {
    Feature("Feature", Geometry("LineString", gpsPoints), map[])
  }

  /** `merge_geojson_features`: the features, in order, neither filtered nor
      deduplicated, as a FeatureCollection (RFC 7946, section 3.3). */
  function MergeGeojsonFeatures(features: seq<Feature>): (c: FeatureCollection)
    ensures c.kind == "FeatureCollection"
    ensures |c.features| == |features| && forall i :: 0 <= i < |features| ==> c.features[i] == features[i]
  {
    FeatureCollection("FeatureCollection", features)
  }

  /** Building a feature and reading its coordinates back gives the points. */
  lemma LineStringRoundTrip(gpsPoints: seq<Point>, f: Feature)
    requires IsLineStringFeature(f)
    ensures BuildGeojsonLineString(f.geometry.coordinates) == f
    ensures BuildGeojsonLineString(gpsPoints).geometry.coordinates == gpsPoints
  {
  }

  // =====================================================================
  // Aggregation

  /** `sum(s.get(k) or 0 for s in stats)`. */
  function SumOrZero(stats: seq<Stats>, k: StatKey): real {
    if stats == [] then 0.0
    else SumOrZero(stats[..|stats| - 1], k) + OrZero(stats[|stats| - 1].Get(k))
  }

  /** Missing values add nothing, and non-negative values give a
      non-negative total. */
  lemma {:induction false} SumOrZeroBounds(stats: seq<Stats>, k: StatKey)
    ensures (forall i :: 0 <= i < |stats| ==> stats[i].Get(k).None?) ==> SumOrZero(stats, k) == 0.0
    ensures (forall i :: 0 <= i < |stats| ==> OrZero(stats[i].Get(k)) >= 0.0) ==> SumOrZero(stats, k) >= 0.0
  {
    if stats != [] {
      var n := |stats| - 1;
      SumOrZeroBounds(stats[..n], k);
      assert forall i :: 0 <= i < n ==> stats[..n][i] == stats[i];
    }
  }

  /** The entries that hold a number under `k`. */
  function WithKey(stats: seq<Stats>, k: StatKey): (w: seq<Stats>)
    ensures |w| <= |stats|
    ensures forall i :: 0 <= i < |w| ==> w[i].Get(k).Some?
  {
    if stats == [] then []
    else
      var prev := WithKey(stats[..|stats| - 1], k);
      if stats[|stats| - 1].Get(k).Some? then prev + [stats[|stats| - 1]] else prev
  }

  /** `max((s.get(k) or 0 for s in stats), default=0)`. */
  function MaxOrZero(stats: seq<Stats>, k: StatKey): (m: real)
    ensures stats == [] ==> m == 0.0
    ensures forall i :: 0 <= i < |stats| ==> OrZero(stats[i].Get(k)) <= m
    ensures stats != [] ==> exists i :: 0 <= i < |stats| && m == OrZero(stats[i].Get(k))
  {
    if |stats| <= 1 then (if stats == [] then 0.0 else OrZero(stats[0].Get(k)))
    else
      var prev := MaxOrZero(stats[..|stats| - 1], k);
      var last := OrZero(stats[|stats| - 1].Get(k));
      assert forall i :: 0 <= i < |stats| - 1 ==> stats[..|stats| - 1][i] == stats[i];
      if last > prev then last else prev
  }

  /** `aggregate_stats`: trip totals over per-file statistics. */
  function AggregateStats(stats: seq<Stats>): (total: Stats)
    ensures total.Complete()
    ensures total.distanceKm == Some(SumOrZero(stats, DistanceKm))
    ensures total.elapsedTimeS == Some(SumOrZero(stats, ElapsedTimeS))
    ensures total.movingTimeS == Some(SumOrZero(stats, MovingTimeS))
    ensures total.elevationGainM == Some(Trunc(SumOrZero(stats, ElevationGainM)) as real)
    ensures total.elevationLossM == Some(Trunc(SumOrZero(stats, ElevationLossM)) as real)
    ensures IsIntegral(total.elevationGainM.value) && IsIntegral(total.elevationLossM.value)
    ensures IsIntegral(total.calories.value)
    ensures total.calories == Some(Trunc(SumOrZero(WithKey(stats, Calories), Calories)) as real)
    ensures total.maxSpeedKmh == Some(MaxOrZero(stats, MaxSpeedKmh))
    ensures SumOrZero(stats, MovingTimeS) <= 0.0 ==> total.avgSpeedKmh == Some(0.0)
    ensures SumOrZero(stats, MovingTimeS) > 0.0 ==>
      total.avgSpeedKmh == Some(SumOrZero(stats, DistanceKm) / SumOrZero(stats, MovingTimeS) * 3600.0)
  {
    var totalDistanceKm := SumOrZero(stats, DistanceKm);
    var totalMovingTime := SumOrZero(stats, MovingTimeS);
    var avgSpeed := if totalMovingTime > 0.0 then totalDistanceKm / totalMovingTime * 3600.0 else 0.0;
    Stats(
      Some(totalDistanceKm),
      Some(Trunc(SumOrZero(stats, ElevationGainM)) as real),
      Some(Trunc(SumOrZero(stats, ElevationLossM)) as real),
      Some(SumOrZero(stats, ElapsedTimeS)),
      Some(totalMovingTime),
      Some(Trunc(SumOrZero(WithKey(stats, Calories), Calories)) as real),
      Some(avgSpeed),
      Some(MaxOrZero(stats, MaxSpeedKmh)))
  }

  /** Sums split over concatenation. */
  lemma {:induction false} SumOrZeroAppend(a: seq<Stats>, b: seq<Stats>, k: StatKey)
    ensures SumOrZero(a + b, k) == SumOrZero(a, k) + SumOrZero(b, k)
    decreases |b|
  {
    if b == [] {
      assert a + b == a;
    } else {
      var b' := b[..|b| - 1];
      assert (a + b)[..|a + b| - 1] == a + b';
      assert (a + b)[|a + b| - 1] == b[|b| - 1];
      SumOrZeroAppend(a, b', k);
    }
  }

  /** Summing only the entries that have the key gives the same total as
      counting a missing value as 0: entries without calories contribute
      nothing and do not make the total null. */
  lemma {:induction false} SumWithKeyIsSumOrZero(stats: seq<Stats>, k: StatKey)
    ensures SumOrZero(WithKey(stats, k), k) == SumOrZero(stats, k)
  {
    if stats != [] {
      var n := |stats| - 1;
      SumWithKeyIsSumOrZero(stats[..n], k);
      if stats[n].Get(k).Some? {
        var w := WithKey(stats[..n], k);
        assert (w + [stats[n]])[..|w|] == w;
      }
    }
  }

  /** Aggregating a single complete file keeps each of its summed figures
      (the gains, losses and calories when they are whole numbers) and its
      maximum speed. */
  lemma AggregateSingle(x: Stats)
    requires x.Complete()
    requires IsIntegral(x.elevationGainM.value) && IsIntegral(x.elevationLossM.value) && IsIntegral(x.calories.value)
    ensures var total := AggregateStats([x]);
      && total.distanceKm == x.distanceKm
      && total.elevationGainM == x.elevationGainM
      && total.elevationLossM == x.elevationLossM
      && total.elapsedTimeS == x.elapsedTimeS
      && total.movingTimeS == x.movingTimeS
      && total.calories == x.calories
      && total.maxSpeedKmh == x.maxSpeedKmh
      && (x.movingTimeS.value > 0.0 ==>
            total.avgSpeedKmh == Some(x.distanceKm.value / x.movingTimeS.value * 3600.0))
  {
    forall k: StatKey ensures SumOrZero([x], k) == x.Get(k).value {
      SumOrZeroSingle(x, k);
    }
    assert WithKey([x], Calories) == [x] by {
      assert [x][..0] == [];
    }
    TruncIntegral(x.elevationGainM.value);
    TruncIntegral(x.elevationLossM.value);
    TruncIntegral(x.calories.value);
  }

  lemma SumOrZeroSingle(x: Stats, k: StatKey)
    ensures SumOrZero([x], k) == OrZero(x.Get(k))
  {
    assert [x][..0] == [];
  }

  lemma TruncIntegral(v: real)
    requires IsIntegral(v)
    ensures Trunc(v) as real == v
  {
    var n := v.Floor;
    assert v == n as real;
    if v < 0.0 {
      assert -v == (-n) as real;
      assert (-v).Floor == -n;
    }
  }

  /** One GPX file without calories and one FIT file with 5: the total is 5. */
  lemma CaloriesSkipNull(a: Stats, b: Stats)
    requires a.calories.None? && b.calories == Some(5.0)
    ensures AggregateStats([a, b]).calories == Some(5.0)
  {
    assert [a, b][..1] == [a];
    assert [a][..0] == [];
    assert WithKey([a, b], Calories) == [b];
    SumOrZeroSingle(b, Calories);
    TruncIntegral(5.0);
  }

  /** The trip of two files: a FIT file (5 km, 100 m up, 300 kcal, top speed
      36 km/h) and a GPX file (3 km, 50 m up, no calories). */
  lemma TwoFileTrip(fit: Stats, gpx: Stats)
    requires fit.distanceKm == Some(5.0) && fit.elevationGainM == Some(100.0)
    requires fit.calories == Some(300.0) && fit.maxSpeedKmh == Some(36.0)
    requires gpx.distanceKm == Some(3.0) && gpx.elevationGainM == Some(50.0)
    requires gpx.calories.None? && gpx.maxSpeedKmh == Some(0.0)
    ensures var total := AggregateStats([fit, gpx]);
      && total.distanceKm == Some(8.0) && total.elevationGainM == Some(150.0)
      && total.calories == Some(300.0) && total.maxSpeedKmh == Some(36.0)
  {
    assert [fit, gpx] == [fit] + [gpx];
    forall k: StatKey ensures SumOrZero([fit, gpx], k) == OrZero(fit.Get(k)) + OrZero(gpx.Get(k)) {
      SumOrZeroAppend([fit], [gpx], k);
      SumOrZeroSingle(fit, k);
      SumOrZeroSingle(gpx, k);
    }
    assert [fit, gpx][..1] == [fit];
    assert [fit][..0] == [];
    assert WithKey([fit, gpx], Calories) == [fit];
    SumOrZeroSingle(fit, Calories);
    TruncIntegral(300.0);
    TruncIntegral(150.0);
  }

  // =====================================================================
  // Processing the files of an adventure page

  predicate SortedBySortOrder(files: seq<ActivityFile>) {
    forall i, j :: 0 <= i < j < |files| ==> files[i].sortOrder <= files[j].sortOrder
  }

  function InsertBySortOrder(f: ActivityFile, files: seq<ActivityFile>): (r: seq<ActivityFile>)
    requires SortedBySortOrder(files)
    ensures SortedBySortOrder(r)
    ensures multiset(r) == multiset(files) + multiset{f}
  {
    if files == [] then [f]
    else if f.sortOrder <= files[0].sortOrder then
      SortedCons(f, files);
      [f] + files
    else
      var rest := InsertBySortOrder(f, files[1..]);
      assert files == [files[0]] + files[1..];
      InsertedLowerBound(f, files, rest);
      SortedCons(files[0], rest);
      [files[0]] + rest
  }

  lemma SortedCons(x: ActivityFile, s: seq<ActivityFile>)
    requires SortedBySortOrder(s)
    requires forall i :: 0 <= i < |s| ==> x.sortOrder <= s[i].sortOrder
    ensures SortedBySortOrder([x] + s)
  {
  }

  /** Every file of `rest`, a permutation of the tail of `files` plus `f`,
      comes at or after the head of `files`. */
  lemma InsertedLowerBound(f: ActivityFile, files: seq<ActivityFile>, rest: seq<ActivityFile>)
    requires files != [] && SortedBySortOrder(files) && files[0].sortOrder < f.sortOrder
    requires multiset(rest) == multiset(files[1..]) + multiset{f}
    ensures forall i :: 0 <= i < |rest| ==> files[0].sortOrder <= rest[i].sortOrder
  {
    forall i | 0 <= i < |rest| ensures files[0].sortOrder <= rest[i].sortOrder {
      var x := rest[i];
      assert x in multiset(rest);
      if x != f {
        assert x in multiset(files[1..]);
        var j :| 0 <= j < |files[1..]| && files[1..][j] == x;
        assert files[j + 1] == x;
      }
    }
  }

  /** `order_by('sort_order')`: the page's files by ascending sort order,
      each exactly once. */
  function SortBySortOrder(files: seq<ActivityFile>): (r: seq<ActivityFile>)
    ensures SortedBySortOrder(r)
    ensures multiset(r) == multiset(files)
  {
    if files == [] then []
    else
      var rest := SortBySortOrder(files[1..]);
      assert files == [files[0]] + files[1..];
      InsertBySortOrder(files[0], rest)
  }

  /** A sequence without repeats holds each value at most once. */
  lemma {:induction false} DistinctCount<T>(s: seq<T>, x: T)
    requires Distinct(s)
    ensures multiset(s)[x] <= 1
  {
    if s != [] {
      var n := |s| - 1;
      assert s == s[..n] + [s[n]];
      assert Distinct(s[..n]);
      DistinctCount(s[..n], x);
      if x == s[n] {
        assert x !in s[..n];
      }
    }
  }

  /** A value at two positions occurs at least twice. */
  lemma RepeatCount<T>(s: seq<T>, i: nat, j: nat)
    requires i < j < |s| && s[i] == s[j]
    ensures multiset(s)[s[i]] >= 2
  {
    assert s == s[..j] + [s[j]] + s[j + 1..];
    assert s[i] in multiset(s[..j]);
  }

  /** Reordering keeps a sequence free of repeats. */
  lemma DistinctPermutation<T>(a: seq<T>, b: seq<T>)
    requires multiset(a) == multiset(b) && Distinct(a)
    ensures Distinct(b)
  {
    forall i, j | 0 <= i < j < |b| ensures b[i] != b[j] {
      if b[i] == b[j] {
        RepeatCount(b, i, j);
        DistinctCount(a, b[i]);
        assert false;
      }
    }
  }

  /** The stored state of some files. */
  function Records(files: seq<ActivityFile>): (rs: seq<FileRecord>)
    reads files
    ensures |rs| == |files| && forall i :: 0 <= i < |files| ==> rs[i] == files[i].Record()
  {
    if files == [] then [] else Records(files[..|files| - 1]) + [files[|files| - 1].Record()]
  }

  /** Reading a file's content and handing it to the parser its type
      selects: "fit" to the FIT parser, anything else to the GPX parser. */
  function ParseFile(content: Blob, fileType: string): (r: Result<Parsed, ParseError>)
    ensures !content.readable ==> r == Err(UnreadableSource)
    ensures content.readable && fileType == "fit" ==> (r.Err? <==> content.asFit.Err?)
    ensures content.readable && fileType != "fit" ==> (r.Err? <==> content.asGpx.Err?)
    ensures content.readable && fileType == "fit" && content.asFit.Ok? ==> r == Ok(FitParse(content.asFit.value))
    ensures content.readable && fileType == "fit" && content.asFit.Err? ==> r == Err(content.asFit.error)
    ensures content.readable && fileType != "fit" && content.asGpx.Ok? ==> r == Ok(GpxParse(content.asGpx.value))
    ensures content.readable && fileType != "fit" && content.asGpx.Err? ==> r == Err(content.asGpx.error)
  {
    if !content.readable then Err(UnreadableSource)
    else if fileType == "fit" then
      match content.asFit
      case Ok(frames) => Ok(FitParse(frames))
      case Err(e) => Err(e)
    else
      match content.asGpx
      case Ok(doc) => Ok(GpxParse(doc))
      case Err(e) => Err(e)
  }

  /** The method form of `ParseFile`, running the parser loops. */
  method ParseActivityFile(content: Blob, fileType: string) returns (r: Result<Parsed, ParseError>)
    ensures r == ParseFile(content, fileType)
  {
    if !content.readable {
      return Err(UnreadableSource);
    }
    if fileType == "fit" {
      match content.asFit
      case Err(e) => r := Err(e);
      case Ok(frames) =>
        var parsed := ParseFitFrames(frames);
        r := Ok(parsed);
    } else {
      match content.asGpx
      case Err(e) => r := Err(e);
      case Ok(doc) =>
        var parsed := ParseGpxDocument(doc);
        r := Ok(parsed);
    }
  }

  /** A file after parsing succeeded at time `now`. */
  function Stamped(r: FileRecord, parsed: Parsed, now: Timestamp): (s: FileRecord)
    ensures s.pk == r.pk && s.file == r.file && s.fileType == r.fileType && s.content == r.content
    ensures s.parsedStats == Some(parsed.stats)
    ensures s.routeGeojson == Some(BuildGeojsonLineString(parsed.points))
    ensures s.processedAt == Some(now)
  {
    r.(parsedStats := Some(parsed.stats),
       routeGeojson := Some(BuildGeojsonLineString(parsed.points)),
       processedAt := Some(now))
  }

  /** One file's step of a run: a processed file is reused as stored; an
      unprocessed one is parsed and stamped, or fails the run. */
  function ProcessFile(r: FileRecord, now: Timestamp): (s: Result<FileRecord, ParseError>)
    ensures r.Processed() ==> s == Ok(r)
    ensures !r.Processed() && ParseFile(r.content, r.fileType).Err? ==> s == Err(ParseFile(r.content, r.fileType).error)
    ensures !r.Processed() && ParseFile(r.content, r.fileType).Ok? ==>
      s == Ok(Stamped(r, ParseFile(r.content, r.fileType).value, now))
    ensures s.Ok? ==> s.value.Processed()
  {
    if r.Processed() then Ok(r)
    else
      match ParseFile(r.content, r.fileType)
      case Ok(parsed) => Ok(Stamped(r, parsed, now))
      case Err(e) => Err(e)
  }

  /** The files after a run over them in order, and the error that stopped
      it, if any. */
  datatype Run = Run(files: seq<FileRecord>, failure: Option<ParseError>)

  /** Each file's own step at time `now`, as if no earlier one had failed. */
  function Steps(rs: seq<FileRecord>, now: Timestamp): (steps: seq<Result<FileRecord, ParseError>>)
    ensures |steps| == |rs|
  {
    if rs == [] then [] else Steps(rs[..|rs| - 1], now) + [ProcessFile(rs[|rs| - 1], now)]
  }

  /** The step of the file at index `i`. */
  lemma {:induction false} StepAt(rs: seq<FileRecord>, now: Timestamp, i: nat)
    requires i < |rs|
    ensures Steps(rs, now)[i] == ProcessFile(rs[i], now)
    decreases |rs|
  {
    var n := |rs| - 1;
    if i < n {
      StepAt(rs[..n], now, i);
    }
  }

  /** A run over files in order, given each file's step: the steps are taken
      until one fails; the failing file and every later one are left as
      they were. */
  function RunOver(rs: seq<FileRecord>, steps: seq<Result<FileRecord, ParseError>>): (run: Run)
    requires |steps| == |rs|
    ensures |run.files| == |rs|
  {
    if rs == [] then Run([], None)
    else
      var n := |rs| - 1;
      var prev := RunOver(rs[..n], steps[..n]);
      if prev.failure.Some? then Run(prev.files + [rs[n]], prev.failure)
      else
        match steps[n]
        case Ok(s) => Run(prev.files + [s], None)
        case Err(e) => Run(prev.files + [rs[n]], Some(e))
  }

  /** A run at time `now` over files in order. */
  function RunFiles(rs: seq<FileRecord>, now: Timestamp): (run: Run)
    ensures |run.files| == |rs|
  {
    RunOver(rs, Steps(rs, now))
  }

  /** The truthy `parsed_stats` of some files, in order. */
  function CollectStats(rs: seq<FileRecord>): (all: seq<Stats>)
    ensures |all| <= |rs|
  {
    if rs == [] then []
    else
      var last := rs[|rs| - 1];
      CollectStats(rs[..|rs| - 1]) + (if last.parsedStats.Some? then [last.parsedStats.value] else [])
  }

  /** The truthy `route_geojson` of some files, in order. */
  function CollectRoutes(rs: seq<FileRecord>): (all: seq<Feature>)
    ensures |all| <= |rs|
  {
    if rs == [] then []
    else
      var last := rs[|rs| - 1];
      CollectRoutes(rs[..|rs| - 1]) + (if last.routeGeojson.Some? then [last.routeGeojson.value] else [])
  }

  /** The page-level figures a completed run writes. */
  function PageStats(rs: seq<FileRecord>): (st: Option<Stats>)
  {
    var all := CollectStats(rs);
    if all == [] then None else Some(AggregateStats(all))
  }

  /** The page's merged route a completed run writes. */
  function PageRoute(rs: seq<FileRecord>): (route: Option<FeatureCollection>)
  {
    var all := CollectRoutes(rs);
    if all == [] then None else Some(MergeGeojsonFeatures(all))
  }

  datatype RunOutcome = Completed | Aborted(error: ParseError)

  /** A page's total is a complete set of statistics, and its merged route
      is a FeatureCollection of exactly the collected routes, in order. */
  lemma PageTotalsShape(rs: seq<FileRecord>)
    ensures PageStats(rs).Some? ==> PageStats(rs).value.Complete()
    ensures PageRoute(rs).Some? ==>
      PageRoute(rs).value.kind == "FeatureCollection" && PageRoute(rs).value.features == CollectRoutes(rs)
  {
  }

  /** Two orderings of the same files hold the same files. */
  lemma SameElements<T>(a: seq<T>, b: seq<T>)
    requires multiset(a) == multiset(b)
    ensures forall j :: 0 <= j < |a| ==> a[j] in b
  {
    forall j | 0 <= j < |a| ensures a[j] in b {
      assert a[j] in multiset(a);
    }
  }

  /** `process_adventure_files` at time `now`: visits the page's files in
      ascending sort order, parses and stamps the unprocessed ones, then
      rewrites the page's aggregate and merged route; a parse failure stops
      the run, keeping the files already written and leaving the page as it
      was. */
  method ProcessAdventureFiles(page: AdventurePage, now: Timestamp) returns (outcome: RunOutcome)
    requires page.Valid()
    modifies page, page.activityFiles
    ensures page.activityFiles == old(page.activityFiles)
    ensures page.dateStart == old(page.dateStart) && page.dateEnd == old(page.dateEnd)
    ensures page.distanceKm == old(page.distanceKm) && page.elevationGainM == old(page.elevationGainM)
    ensures var files := SortBySortOrder(page.activityFiles);
            var run := RunFiles(old(Records(files)), now);
            && (forall j :: 0 <= j < |files| ==> files[j].Record() == run.files[j])
            && outcome == (if run.failure.Some? then Aborted(run.failure.value) else Completed)
            && (outcome.Completed? ==> page.computedStats == PageStats(run.files) && page.mergedRouteGeojson == PageRoute(run.files))
            && (outcome.Aborted? ==> page.computedStats == old(page.computedStats) && page.mergedRouteGeojson == old(page.mergedRouteGeojson))
  {
    var files := SortBySortOrder(page.activityFiles);
    SameElements(files, page.activityFiles);
    DistinctPermutation(page.activityFiles, files);
    var stats, route;
    outcome, stats, route := ProcessInOrder(files, now);
    if outcome.Completed? {
      page.SaveTotals(stats, route);
    }
  }

  /** The loop of `process_adventure_files` over files already in sort
      order: the outcome, and the page-level values the collected stats and
      features give. */
  method ProcessInOrder(files: seq<ActivityFile>, now: Timestamp)
    returns (outcome: RunOutcome, stats: Option<Stats>, route: Option<FeatureCollection>)
    requires Distinct(files)
    modifies files
    ensures var run := RunFiles(old(Records(files)), now);
            && (forall j :: 0 <= j < |files| ==> files[j].Record() == run.files[j])
            && outcome == (if run.failure.Some? then Aborted(run.failure.value) else Completed)
            && (outcome.Completed? ==> stats == PageStats(run.files) && route == PageRoute(run.files))
  {
    ghost var before := Records(files);
    ghost var done;
    var allStats, allFeatures;
    outcome, allStats, allFeatures, done := ProcessLoop(files, now, before);
    LoopIsRun(before, now, done, Records(files));
    if outcome.Completed? {
      assert done == RunFiles(before, now).files;
      stats, route := PageTotals(allStats, allFeatures, done);
    } else {
      stats, route := None, None;
    }
  }

  /** The page-level values of a run: the aggregate of the collected stats
      and the collection of the collected routes, each None when nothing
      was collected. */
  method PageTotals(allStats: seq<Stats>, allFeatures: seq<Feature>, ghost rows: seq<FileRecord>)
    returns (stats: Option<Stats>, route: Option<FeatureCollection>)
    requires allStats == CollectStats(rows) && allFeatures == CollectRoutes(rows)
    ensures stats == PageStats(rows) && route == PageRoute(rows)
  {
    stats := if allStats != [] then Some(AggregateStats(allStats)) else None;
    route := if allFeatures != [] then Some(MergeGeojsonFeatures(allFeatures)) else None;
  }

  /** The loop of `process_adventure_files`: `done` are the records of the
      files it processed before it stopped, each its step's result. */
  method ProcessLoop(files: seq<ActivityFile>, now: Timestamp, ghost before: seq<FileRecord>)
    returns (outcome: RunOutcome, allStats: seq<Stats>, allFeatures: seq<Feature>, ghost done: seq<FileRecord>)
    requires Distinct(files) && |before| == |files|
    requires forall j :: 0 <= j < |files| ==> files[j].Record() == before[j]
    modifies files
    ensures |done| <= |files|
    ensures forall j :: 0 <= j < |done| ==> Steps(before, now)[j] == Ok(done[j]) && files[j].Record() == done[j]
    ensures forall j :: |done| <= j < |files| ==> files[j].Record() == before[j]
    ensures outcome.Completed? <==> |done| == |files|
    ensures outcome.Aborted? ==> Steps(before, now)[|done|] == Err(outcome.error)
    ensures allStats == CollectStats(done) && allFeatures == CollectRoutes(done)
  {
    ghost var steps := Steps(before, now);
    allStats := [];
    allFeatures := [];
    done := [];
    var i := 0;
    while i < |files|
      invariant 0 <= i <= |files| && |done| == i
      invariant forall j :: 0 <= j < i ==> steps[j] == Ok(done[j]) && files[j].Record() == done[j]
      invariant forall j :: i <= j < |files| ==> files[j].Record() == before[j]
      invariant allStats == CollectStats(done) && allFeatures == CollectRoutes(done)
    {
      var result;
      result, allStats, allFeatures, done := Advance(files, i, now, before, allStats, allFeatures, done);
      if result.Err? {
        return Aborted(result.error), allStats, allFeatures, done;
      }
      i := i + 1;
    }
    outcome := Completed;
  }

  /** One iteration of the loop of `process_adventure_files`: the next
      file is processed and, when that succeeds, counted as done. */
  method Advance(files: seq<ActivityFile>, i: nat, now: Timestamp, ghost before: seq<FileRecord>,
                 allStats: seq<Stats>, allFeatures: seq<Feature>, ghost done: seq<FileRecord>)
    returns (result: Result<FileRecord, ParseError>, allStats': seq<Stats>, allFeatures': seq<Feature>, ghost done': seq<FileRecord>)
    requires Distinct(files) && |before| == |files| && i == |done| < |files|
    requires forall j :: 0 <= j < |done| ==> Steps(before, now)[j] == Ok(done[j]) && files[j].Record() == done[j]
    requires forall j :: |done| <= j < |files| ==> files[j].Record() == before[j]
    requires allStats == CollectStats(done) && allFeatures == CollectRoutes(done)
    modifies files[i]
    ensures result.Err? ==> Steps(before, now)[|done|] == Err(result.error) && done' == done
    ensures result.Ok? ==> done' == done + [result.value]
    ensures forall j :: 0 <= j < |done'| ==> Steps(before, now)[j] == Ok(done'[j]) && files[j].Record() == done'[j]
    ensures forall j :: |done'| <= j < |files| ==> files[j].Record() == before[j]
    ensures allStats' == CollectStats(done') && allFeatures' == CollectRoutes(done')
  {
    result := ProcessNext(files, i, now, before);
    if result.Err? {
      return result, allStats, allFeatures, done;
    }
    allStats', allFeatures' := CollectRow(result.value, allStats, allFeatures, done);
    done' := done + [result.value];
  }

  /** A written file's contributions to the page-level lists: its stats
      and its route, when truthy. */
  method CollectRow(row: FileRecord, allStats: seq<Stats>, allFeatures: seq<Feature>, ghost done: seq<FileRecord>)
    returns (allStats': seq<Stats>, allFeatures': seq<Feature>)
    requires allStats == CollectStats(done) && allFeatures == CollectRoutes(done)
    ensures allStats' == CollectStats(done + [row]) && allFeatures' == CollectRoutes(done + [row])
  {
    CollectAppend(done, row);
    allStats', allFeatures' := allStats, allFeatures;
    if row.parsedStats.Some? {
      allStats' := allStats' + [row.parsedStats.value];
    }
    if row.routeGeojson.Some? {
      allFeatures' := allFeatures' + [row.routeGeojson.value];
    }
  }

  /** The loop body of `process_adventure_files` at index `i`, with the
      other files of the page untouched. */
  method ProcessNext(files: seq<ActivityFile>, i: nat, now: Timestamp, ghost before: seq<FileRecord>)
    returns (result: Result<FileRecord, ParseError>)
    requires Distinct(files) && i < |files| == |before|
    requires files[i].Record() == before[i]
    modifies files[i]
    ensures result == Steps(before, now)[i]
    ensures files[i].Record() == if result.Ok? then result.value else before[i]
    ensures forall j :: 0 <= j < |files| && j != i ==> files[j].Record() == old(files[j].Record())
  {
    result := ProcessFileInPlace(files[i], now);
    StepAt(before, now, i);
    forall j | 0 <= j < |files| && j != i
      ensures files[j].Record() == old(files[j].Record())
    {
      assert files[j] != files[i];
    }
  }

  /** The loop body of `process_adventure_files` for one file: an
      unprocessed file is read, parsed and stamped; a processed one is left
      alone. On failure the file is unchanged. */
  method ProcessFileInPlace(f: ActivityFile, now: Timestamp) returns (result: Result<FileRecord, ParseError>)
    modifies f
    ensures result == ProcessFile(old(f.Record()), now)
    ensures f.Record() == if result.Ok? then result.value else old(f.Record())
  {
    if f.processedAt.None? {
      var parsed := ParseActivityFile(f.content, f.fileType);
      if parsed.Err? {
        return Err(parsed.error);
      }
      var feature := BuildGeojsonLineString(parsed.value.points);
      f.MarkProcessed(parsed.value.stats, feature, now);
    }
    result := Ok(f.Record());
  }

  /** One more file of a run that has not failed so far. */
  lemma RunStep(rs: seq<FileRecord>, steps: seq<Result<FileRecord, ParseError>>, i: nat)
    requires |steps| == |rs| && i < |rs|
    ensures var prev := RunOver(rs[..i], steps[..i]);
      prev.failure.None? ==>
      RunOver(rs[..i + 1], steps[..i + 1]) == match steps[i]
        case Ok(s) => Run(prev.files + [s], None)
        case Err(e) => Run(prev.files + [rs[i]], Some(e))
  {
    assert rs[..i + 1][..i] == rs[..i];
    assert steps[..i + 1][..i] == steps[..i];
  }

  /** The collected stats and routes of one more file. */
  lemma CollectAppend(rs: seq<FileRecord>, r: FileRecord)
    ensures CollectStats(rs + [r]) == CollectStats(rs) + (if r.parsedStats.Some? then [r.parsedStats.value] else [])
    ensures CollectRoutes(rs + [r]) == CollectRoutes(rs) + (if r.routeGeojson.Some? then [r.routeGeojson.value] else [])
  {
    assert (rs + [r])[..|rs|] == rs;
  }

  /** A run whose every step succeeds writes every step's result and does
      not fail. */
  lemma {:induction false} RunAllSucceed(rs: seq<FileRecord>, steps: seq<Result<FileRecord, ParseError>>, done: seq<FileRecord>)
    requires |steps| == |rs| == |done|
    requires forall j :: 0 <= j < |rs| ==> steps[j] == Ok(done[j])
    ensures RunOver(rs, steps) == Run(done, None)
  {
    if rs != [] {
      var n := |rs| - 1;
      RunAllSucceed(rs[..n], steps[..n], done[..n]);
      assert done == done[..n] + [done[n]];
    }
  }

  /** A run whose first failing step is at index `i`: the files before it
      hold their steps' results, that file and every later one are left as
      they were, and the failure is that step's. */
  lemma RunFailsAt(rs: seq<FileRecord>, steps: seq<Result<FileRecord, ParseError>>, i: nat, done: seq<FileRecord>)
    requires |steps| == |rs| && i < |rs| && |done| == i
    requires forall j :: 0 <= j < i ==> steps[j] == Ok(done[j])
    requires steps[i].Err?
    ensures RunOver(rs, steps) == Run(done + rs[i..], Some(steps[i].error))
  {
    FirstFailure(rs, steps, i, done);
    RunStopsAtFailure(rs, steps, i + 1);
    var head := done + [rs[i]];
    assert head + rs[i + 1..] == done + rs[i..] by {
      assert rs[i..] == [rs[i]] + rs[i + 1..];
    }
  }

  /** The prefix of a run up to and including its first failing step. */
  lemma FirstFailure(rs: seq<FileRecord>, steps: seq<Result<FileRecord, ParseError>>, i: nat, done: seq<FileRecord>)
    requires |steps| == |rs| && i < |rs| && |done| == i
    requires forall j :: 0 <= j < i ==> steps[j] == Ok(done[j])
    requires steps[i].Err?
    ensures RunOver(rs[..i + 1], steps[..i + 1]) == Run(done + [rs[i]], Some(steps[i].error))
  {
    assert forall j :: 0 <= j < i ==> steps[..i][j] == Ok(done[j]);
    RunAllSucceed(rs[..i], steps[..i], done);
    RunStep(rs, steps, i);
  }

  /** A loop that stopped after `done`, either at the end or at a failing
      step, leaving `current` behind, has performed the run. */
  lemma LoopIsRun(rs: seq<FileRecord>, now: Timestamp, done: seq<FileRecord>, current: seq<FileRecord>)
    requires |done| <= |rs| == |current|
    requires forall j :: 0 <= j < |done| ==> Steps(rs, now)[j] == Ok(done[j]) && current[j] == done[j]
    requires forall j :: |done| <= j < |rs| ==> current[j] == rs[j]
    requires |done| < |rs| ==> Steps(rs, now)[|done|].Err?
    ensures RunFiles(rs, now).files == current
    ensures RunFiles(rs, now).failure == if |done| < |rs| then Some(Steps(rs, now)[|done|].error) else None
    ensures |done| == |rs| ==> done == current
  {
    var steps := Steps(rs, now);
    if |done| < |rs| {
      RunFailsAt(rs, steps, |done|, done);
      assert done + rs[|done|..] == current;
    } else {
      RunAllSucceed(rs, steps, done);
      assert done == current;
    }
  }

  /** Once a prefix of a run has failed, the rest of the files are left as
      they were and the failure is the run's. */
  lemma {:induction false} RunStopsAtFailure(rs: seq<FileRecord>, steps: seq<Result<FileRecord, ParseError>>, k: nat)
    requires |steps| == |rs| && k <= |rs|
    requires RunOver(rs[..k], steps[..k]).failure.Some?
    ensures RunOver(rs, steps) == Run(RunOver(rs[..k], steps[..k]).files + rs[k..], RunOver(rs[..k], steps[..k]).failure)
    decreases |rs| - k
  {
    if k == |rs| {
      assert rs[..k] == rs && steps[..k] == steps;
      assert rs[k..] == [];
    } else {
      var n := |rs| - 1;
      assert rs[..n][..k] == rs[..k] && steps[..n][..k] == steps[..k];
      RunStopsAtFailure(rs[..n], steps[..n], k);
      assert rs[k..] == rs[..n][k..] + [rs[n]];
    }
  }

  // ---------------------------------------------------------------------
  // What a run promises

  /** The row is the same file: same key, name, type and content. */
  predicate SameRow(a: FileRecord, b: FileRecord) {
    a.pk == b.pk && a.file == b.file && a.fileType == b.fileType && a.content == b.content
  }

  lemma {:induction false} RunOverKeepsRows(rs: seq<FileRecord>, steps: seq<Result<FileRecord, ParseError>>)
    requires |steps| == |rs|
    requires forall j :: 0 <= j < |rs| && steps[j].Ok? ==> SameRow(steps[j].value, rs[j])
    requires forall j :: 0 <= j < |rs| && rs[j].Processed() ==> steps[j] == Ok(rs[j])
    ensures forall j :: 0 <= j < |rs| ==> SameRow(RunOver(rs, steps).files[j], rs[j])
    ensures forall j :: 0 <= j < |rs| && rs[j].Processed() ==> RunOver(rs, steps).files[j] == rs[j]
  {
    if rs != [] {
      var n := |rs| - 1;
      RunOverKeepsRows(rs[..n], steps[..n]);
      var prev := RunOver(rs[..n], steps[..n]);
      var run := RunOver(rs, steps);
      assert run.files[..n] == prev.files;
      forall j | 0 <= j < n ensures run.files[j] == prev.files[j] && rs[..n][j] == rs[j] {
        assert run.files[..n][j] == run.files[j];
      }
    }
  }

  /** A run leaves every file the same file, and a file processed before
      the run exactly as it was. */
  lemma RunKeepsRows(rs: seq<FileRecord>, now: Timestamp)
    ensures forall j :: 0 <= j < |rs| ==> SameRow(RunFiles(rs, now).files[j], rs[j])
    ensures forall j :: 0 <= j < |rs| && rs[j].Processed() ==> RunFiles(rs, now).files[j] == rs[j]
  {
    var steps := Steps(rs, now);
    forall j | 0 <= j < |rs| ensures steps[j] == ProcessFile(rs[j], now) {
      StepAt(rs, now, j);
    }
    RunOverKeepsRows(rs, steps);
  }

  lemma {:induction false} RunOverCompleted(rs: seq<FileRecord>, steps: seq<Result<FileRecord, ParseError>>)
    requires |steps| == |rs| && RunOver(rs, steps).failure.None?
    ensures forall j :: 0 <= j < |rs| ==> steps[j].Ok? && RunOver(rs, steps).files[j] == steps[j].value
  {
    if rs != [] {
      var n := |rs| - 1;
      RunOverCompleted(rs[..n], steps[..n]);
      var run := RunOver(rs, steps);
      forall j | 0 <= j < n ensures steps[j].Ok? && run.files[j] == steps[j].value {
        assert steps[..n][j] == steps[j];
        assert run.files[..n][j] == run.files[j];
      }
    }
  }

  /** A run completes exactly when no file's step fails; a completed run
      has written every step's result, so every file is processed. */
  lemma RunCompletes(rs: seq<FileRecord>, now: Timestamp)
    ensures RunFiles(rs, now).failure.None? <==> forall j :: 0 <= j < |rs| ==> ProcessFile(rs[j], now).Ok?
    ensures RunFiles(rs, now).failure.None? ==>
      forall j :: 0 <= j < |rs| ==>
        RunFiles(rs, now).files[j] == ProcessFile(rs[j], now).value && RunFiles(rs, now).files[j].Processed()
  {
    var steps := Steps(rs, now);
    forall j | 0 <= j < |rs| ensures steps[j] == ProcessFile(rs[j], now) {
      StepAt(rs, now, j);
    }
    if RunFiles(rs, now).failure.None? {
      RunOverCompleted(rs, steps);
    }
    if forall j :: 0 <= j < |rs| ==> ProcessFile(rs[j], now).Ok? {
      var done := seq(|rs|, j requires 0 <= j < |rs| => steps[j].value);
      RunAllSucceed(rs, steps, done);
    }
  }

  /** Fail fast: when the first failing file is at index `k`, the files
      before it are written, it and every later file are left as they were,
      and its error is the run's. */
  lemma RunStopsAtFirstFailure(rs: seq<FileRecord>, now: Timestamp, k: nat)
    requires k < |rs| && ProcessFile(rs[k], now).Err?
    requires forall j :: 0 <= j < k ==> ProcessFile(rs[j], now).Ok?
    ensures RunFiles(rs, now).failure == Some(ProcessFile(rs[k], now).error)
    ensures forall j :: 0 <= j < k ==> RunFiles(rs, now).files[j] == ProcessFile(rs[j], now).value
    ensures forall j :: k <= j < |rs| ==> RunFiles(rs, now).files[j] == rs[j]
  {
    var steps := Steps(rs, now);
    forall j | 0 <= j < |rs| ensures steps[j] == ProcessFile(rs[j], now) {
      StepAt(rs, now, j);
    }
    var done := seq(k, j requires 0 <= j < k => steps[j].value);
    RunFailsAt(rs, steps, k, done);
    var run := RunFiles(rs, now);
    forall j | k <= j < |rs| ensures run.files[j] == rs[j] {
      assert (done + rs[k..])[j] == rs[k..][j - k];
    }
  }

  /** Re-running after a completed run, at any later time, changes nothing
      and completes: processed files are never parsed again. */
  lemma RerunIsNoOp(rs: seq<FileRecord>, now: Timestamp, later: Timestamp)
    requires RunFiles(rs, now).failure.None?
    ensures RunFiles(RunFiles(rs, now).files, later) == Run(RunFiles(rs, now).files, None)
  {
    var out := RunFiles(rs, now).files;
    RunCompletes(rs, now);
    var steps := Steps(out, later);
    forall j | 0 <= j < |out| ensures steps[j] == Ok(out[j]) {
      StepAt(out, later, j);
    }
    RunAllSucceed(out, steps, out);
  }

  /** `computed_stats` is None exactly when no file has stats, and
      `merged_route_geojson` exactly when no file has a route. */
  lemma PageTotalsNoneIff(rs: seq<FileRecord>)
    ensures PageStats(rs).None? <==> forall j :: 0 <= j < |rs| ==> rs[j].parsedStats.None?
    ensures PageRoute(rs).None? <==> forall j :: 0 <= j < |rs| ==> rs[j].routeGeojson.None?
  {
    NoStatsIff(rs);
    NoRoutesIff(rs);
  }

  lemma {:induction false} NoStatsIff(rs: seq<FileRecord>)
    ensures CollectStats(rs) == [] <==> forall j :: 0 <= j < |rs| ==> rs[j].parsedStats.None?
  {
    if rs != [] {
      var n := |rs| - 1;
      NoStatsIff(rs[..n]);
      forall j | 0 <= j < n ensures rs[..n][j] == rs[j] { }
    }
  }

  lemma {:induction false} NoRoutesIff(rs: seq<FileRecord>)
    ensures CollectRoutes(rs) == [] <==> forall j :: 0 <= j < |rs| ==> rs[j].routeGeojson.None?
  {
    if rs != [] {
      var n := |rs| - 1;
      NoRoutesIff(rs[..n]);
      forall j | 0 <= j < n ensures rs[..n][j] == rs[j] { }
    }
  }

  lemma {:induction false} CollectRoutesPrefix(rs: seq<FileRecord>, k: nat)
    requires k <= |rs|
    ensures CollectRoutes(rs[..k]) <= CollectRoutes(rs)
    decreases |rs|
  {
    if k < |rs| {
      var n := |rs| - 1;
      assert rs[..n][..k] == rs[..k];
      CollectRoutesPrefix(rs[..n], k);
    } else {
      assert rs[..k] == rs;
    }
  }

  /** Where the route of file `i` sits among the collected routes. */
  lemma RouteAt(rs: seq<FileRecord>, i: nat)
    requires i < |rs| && rs[i].routeGeojson.Some?
    ensures var p := |CollectRoutes(rs[..i])|;
      p < |CollectRoutes(rs)| && CollectRoutes(rs)[p] == rs[i].routeGeojson.value
  {
    CollectRoutesPrefix(rs, i + 1);
    assert rs[..i + 1][..i] == rs[..i];
    assert CollectRoutes(rs[..i + 1]) == CollectRoutes(rs[..i]) + [rs[i].routeGeojson.value];
  }

  /** The merged route lists the files' routes in file order: the route of
      an earlier file comes before the route of a later one. */
  lemma MergedRouteOrder(rs: seq<FileRecord>, i: nat, j: nat)
    requires i < j < |rs| && rs[i].routeGeojson.Some? && rs[j].routeGeojson.Some?
    ensures var c := CollectRoutes(rs);
      var p, q := |CollectRoutes(rs[..i])|, |CollectRoutes(rs[..j])|;
      && p < q < |c|
      && c[p] == rs[i].routeGeojson.value && c[q] == rs[j].routeGeojson.value
  {
    RouteAt(rs, i);
    RouteAt(rs, j);
    RouteAt(rs[..j], i);
    assert rs[..j][..i] == rs[..i];
  }
}
