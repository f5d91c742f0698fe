/** The two entities of the adventures app that the pipeline reads and
    writes: an uploaded activity file and the adventure page owning it,
    with the small rules the entities themselves carry (file-type inference
    on first save, manual overrides of the computed figures, the choice of
    date-range rendering). */
module Models {
  import opened Wrappers
  import opened ActivityData

  // ---------------------------------------------------------------------
  // File-type inference from the stored file name

  /** Index of the last '.' in `name`. */
  function LastDotIndex(name: string): (i: nat)
    requires '.' in name
    ensures i < |name| && name[i] == '.'
    ensures forall j :: i < j < |name| ==> name[j] != '.'
  {
    if name[|name| - 1] == '.' then |name| - 1
    else
      assert '.' in name[..|name| - 1] by {
        var k :| 0 <= k < |name| && name[k] == '.';
        assert name[..|name| - 1][k] == '.';
      }
      LastDotIndex(name[..|name| - 1])
  }

  /** `name.rsplit('.', 1)[-1]`: the text after the last dot. The result has
      no dot and, put back after a dot, rebuilds the name. */
  function ExtensionOf(name: string): (ext: string)
    requires '.' in name
    ensures '.' !in ext
    ensures |ext| < |name| && name == name[..|name| - |ext| - 1] + "." + ext
  {
    var i := LastDotIndex(name);
    var ext := name[i + 1..];
    assert name == name[..i] + "." + ext;
    ext
  }

  /** ASCII case folding; letters outside A-Z are kept. */
  function LowerChar(c: char): (d: char)
    ensures 'A' <= c <= 'Z' ==> d as int == c as int + 32
    ensures !('A' <= c <= 'Z') ==> d == c
  {
    if 'A' <= c <= 'Z' then (c as int + 32) as char else c
  }

  /** `str.lower()`, restricted to ASCII letters. */
  function Lower(s: string): (t: string)
    ensures |t| == |s| && forall i :: 0 <= i < |s| ==> t[i] == LowerChar(s[i])
  {
    seq(|s|, i requires 0 <= i < |s| => LowerChar(s[i]))
  }

  /** The type recorded for file `name` when the row is first saved:
      the lower-cased extension when it is "fit" or "gpx", otherwise the
      type the row already has (the column default is "gpx"). */
  function InferFileType(name: string, current: string): (t: string)
    ensures '.' !in name ==> t == current
    ensures '.' in name && Lower(ExtensionOf(name)) in {"fit", "gpx"} ==> t == Lower(ExtensionOf(name))
    ensures '.' in name && Lower(ExtensionOf(name)) !in {"fit", "gpx"} ==> t == current
  {
    if '.' in name then
      var ext := Lower(ExtensionOf(name));
      if ext == "fit" || ext == "gpx" then ext else current
    else current
  }

  /** Python's `not self.pk`: no primary key yet, or the falsy key 0. */
  predicate Unsaved(pk: Option<int>) {
    pk.None? || pk.value == 0
  }

  /** The `file_type` a row holds after `save`: inferred only when a file is
      attached and the row's primary key is falsy. */
  function SavedFileType(file: string, pk: Option<int>, current: string): (t: string)
    ensures !Unsaved(pk) || file == "" ==> t == current
    ensures Unsaved(pk) && file != "" ==> t == InferFileType(file, current)
    ensures t in {"fit", "gpx", current}
  {
    if file != "" && Unsaved(pk) then InferFileType(file, current) else current
  }

  lemma UpperCaseExtensionIsFit()
    ensures InferFileType("x.b.FIT", "gpx") == "fit"
  {
    var name := "x.b.FIT";
    assert name[..6] == "x.b.FI" && name[..6][..5] == "x.b.F" && name[..6][..5][..4] == "x.b.";
    assert LastDotIndex("x.b.") == 3;
    assert LastDotIndex(name) == 3;
    assert ExtensionOf(name) == "FIT";
    assert Lower("FIT") == "fit";
  }

  lemma {:induction false} NoExtensionKeepsDefault(name: string)
    requires '.' !in name
    ensures InferFileType(name, "gpx") == "gpx"
  {
  }

  /** A second save of a row with a non-zero key never changes the
      recorded type. */
  lemma {:induction false} ResaveKeepsType(file: string, pk: int, file2: string, t0: string)
    requires pk != 0
    ensures SavedFileType(file2, Some(pk), SavedFileType(file, None, t0)) == SavedFileType(file, None, t0)
  {
  }

  /** A row whose key is 0 counts as unsaved, so its type is inferred again. */
  lemma ZeroKeyReinfers()
    ensures SavedFileType("ride.fit", Some(0), "gpx") == "fit"
  {
    assert LastDotIndex("ride.fit") == 4;
    assert ExtensionOf("ride.fit") == "fit";
  }

  // ---------------------------------------------------------------------
  // Activity files

  /** What the pipeline reads and writes of one activity-file row. */
  datatype FileRecord = FileRecord(
    pk: Option<int>,
    file: string,
    fileType: string,
    content: Blob,
    parsedStats: Option<Stats>,
    routeGeojson: Option<Feature>,
    processedAt: Option<Timestamp>)
  {
    predicate Processed() { processedAt.Some? }
  }

  class ActivityFile {
    /** Position among the page's files; assigned by the page editor. */
    const sortOrder: int
    /** The uploaded bytes, as the decoding libraries see them. */
    const content: Blob
    var pk: Option<int>
    /** Stored file name; "" when no file is attached. */
    var file: string
    var fileType: string
    var parsedStats: Option<Stats>
    var routeGeojson: Option<Feature>
    var processedAt: Option<Timestamp>

    /** A new, unsaved, unprocessed row. */
    constructor (sortOrder: int, file: string, content: Blob)
      ensures this.sortOrder == sortOrder && this.file == file && this.content == content
      ensures pk.None? && fileType == "gpx"
      ensures parsedStats.None? && routeGeojson.None? && processedAt.None?
    {
      this.sortOrder := sortOrder;
      this.content := content;
      this.file := file;
      pk := None;
      fileType := "gpx";
      parsedStats := None;
      routeGeojson := None;
      processedAt := None;
    }

    function Record(): (r: FileRecord)
      reads this
      ensures r.pk == pk && r.file == file && r.fileType == fileType && r.content == content
      ensures r.parsedStats == parsedStats && r.routeGeojson == routeGeojson && r.processedAt == processedAt
    {
      FileRecord(pk, file, fileType, content, parsedStats, routeGeojson, processedAt)
    }

    /** The targeted row update of a processing run: stores the parse
        results and the processing time, touching nothing else. */
    method MarkProcessed(stats: Stats, route: Feature, now: Timestamp)
      modifies this
      ensures Record() == old(Record()).(parsedStats := Some(stats), routeGeojson := Some(route), processedAt := Some(now))
    {
      parsedStats := Some(stats);
      routeGeojson := Some(route);
      processedAt := Some(now);
    }

    /** `ActivityFile.save`: records the inferred type, then stores the row;
        storing a new row gives it the primary key `assignedPk`. */
    method Save(assignedPk: int)
      modifies this
      ensures fileType == SavedFileType(old(file), old(pk), old(fileType))
      ensures pk == if old(pk).None? then Some(assignedPk) else old(pk)
      ensures file == old(file) && parsedStats == old(parsedStats)
      ensures routeGeojson == old(routeGeojson) && processedAt == old(processedAt)
    {
      if file != "" && Unsaved(pk) {
        if '.' in file {
          var ext := Lower(ExtensionOf(file));
          if ext == "fit" || ext == "gpx" {
            fileType := ext;
          }
        }
      }
      if pk.None? {
        pk := Some(assignedPk);
      }
    }
  }

  // ---------------------------------------------------------------------
  // Adventure pages

  datatype Date = Date(year: int, month: int, day: int)

  /** The four renderings `date_display` chooses between. */
  datatype DateDisplayCase = SingleDay | SameMonth | SameYear | DifferentYears

  /** Which rendering `date_display` uses for a trip from `start` to `end`. */
  function DateDisplayCaseOf(start: Date, end: Option<Date>): (c: DateDisplayCase)
    ensures c == SingleDay <==> end.None? || end.value == start
    ensures c == SameMonth <==>
      end.Some? && end.value != start && end.value.year == start.year && end.value.month == start.month
    ensures c == SameYear <==>
      end.Some? && end.value.year == start.year && end.value.month != start.month
    ensures c == DifferentYears <==> end.Some? && end.value.year != start.year
  {
    if end.None? || end.value == start then SingleDay
    else if start.year == end.value.year && start.month == end.value.month then SameMonth
    else if start.year == end.value.year then SameYear
    else DifferentYears
  }

  /** The override-wins rule of the `effective_*` properties: a manual value,
      zero included, wins; otherwise the computed figure under `key`, or None
      when nothing was computed. */
  function Effective(manual: Option<real>, computed: Option<Stats>, key: StatKey): (r: Option<real>)
    ensures manual.Some? ==> r == manual
    ensures manual.None? && computed.None? ==> r.None?
    ensures manual.None? && computed.Some? ==> r == computed.value.Get(key)
  {
    if manual.Some? then manual
    else if computed.Some? then computed.value.Get(key)
    else None
  }

  class AdventurePage {
    var activityFiles: seq<ActivityFile>
    var dateStart: Date
    var dateEnd: Option<Date>
    /** Manual overrides; None when left blank. */
    var distanceKm: Option<real>
    var elevationGainM: Option<int>
    var computedStats: Option<Stats>
    var mergedRouteGeojson: Option<FeatureCollection>

    /** Each row appears once among the page's files. */
    predicate Valid()
      reads this
    {
      Distinct(activityFiles)
    }

    function EffectiveDistanceKm(): (r: Option<real>)
      reads this
      ensures distanceKm.Some? ==> r == distanceKm
      ensures distanceKm.None? ==> r == Effective(None, computedStats, DistanceKm)
    {
      Effective(distanceKm, computedStats, DistanceKm)
    }

    function EffectiveElevationGainM(): (r: Option<real>)
      reads this
      ensures elevationGainM.Some? ==> r == Some(elevationGainM.value as real)
      ensures elevationGainM.None? ==> r == Effective(None, computedStats, ElevationGainM)
    {
      var manual := if elevationGainM.Some? then Some(elevationGainM.value as real) else None;
      Effective(manual, computedStats, ElevationGainM)
    }

    function DateDisplay(): (c: DateDisplayCase)
      reads this
      ensures c == DateDisplayCaseOf(dateStart, dateEnd)
    {
      DateDisplayCaseOf(dateStart, dateEnd)
    }

    /** The targeted page update of a completed run: stores the aggregate
        and the merged route, touching nothing else. */
    method SaveTotals(stats: Option<Stats>, route: Option<FeatureCollection>)
      modifies this
      ensures computedStats == stats && mergedRouteGeojson == route
      ensures activityFiles == old(activityFiles) && dateStart == old(dateStart) && dateEnd == old(dateEnd)
      ensures distanceKm == old(distanceKm) && elevationGainM == old(elevationGainM)
    {
      computedStats := stats;
      mergedRouteGeojson := route;
    }

    /** The publish handler's guard: some file is still unprocessed. */
    predicate HasUnprocessedFiles()
      reads this, activityFiles
    {
      exists i :: 0 <= i < |activityFiles| && activityFiles[i].processedAt.None?
    }
  }
}
