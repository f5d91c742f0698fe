/** The publish handler of adventure pages: processing runs only for an
    adventure page that still has an unprocessed activity file, and then
    runs once, synchronously, on that same page. */
module Signals {
  import opened Wrappers
  import opened ActivityData
  import opened Models
  import opened Services

  /** The object a publish event carries. */
  datatype Instance = AdventureInstance(page: AdventurePage) | OtherInstance

  /** The objects a dispatch may change: the page and its files. */
  function Footprint(instance: Instance): (s: set<object>)
    reads if instance.AdventureInstance? then {instance.page} else {}
    ensures instance.AdventureInstance? ==> instance.page in s
    ensures instance.AdventureInstance? ==> forall f :: f in instance.page.activityFiles ==> f in s
    ensures instance.OtherInstance? ==> s == {}
  {
    if instance.AdventureInstance? then
      {instance.page} + set f | f in instance.page.activityFiles :: f as object
    else {}
  }

  /** The publish handler. The result is the run's outcome when processing
      was invoked, and None when the guard let the event pass. */
  method ProcessActivityFilesOnPublish(instance: Instance, now: Timestamp) returns (ran: Option<RunOutcome>)
    requires instance.AdventureInstance? ==> instance.page.Valid()
    modifies Footprint(instance)
    ensures instance.OtherInstance? ==> ran == None
    ensures instance.AdventureInstance? ==> instance.page.activityFiles == old(instance.page.activityFiles)
    ensures instance.AdventureInstance? ==>
      var page := instance.page;
      && page.dateStart == old(page.dateStart) && page.dateEnd == old(page.dateEnd)
      && page.distanceKm == old(page.distanceKm) && page.elevationGainM == old(page.elevationGainM)
    ensures instance.AdventureInstance? ==>
      var page := instance.page;
      && (ran.Some? <==> old(page.HasUnprocessedFiles()))
      && (ran.None? ==> page.computedStats == old(page.computedStats)
                        && page.mergedRouteGeojson == old(page.mergedRouteGeojson)
                        && forall j :: 0 <= j < |page.activityFiles| ==>
                             page.activityFiles[j].Record() == old(page.activityFiles[j].Record()))
      && (ran.Some? ==>
            var files := SortBySortOrder(page.activityFiles);
            var run := RunFiles(old(Records(files)), now);
            && (forall j :: 0 <= j < |files| ==> files[j].Record() == run.files[j])
            && ran.value == (if run.failure.Some? then Aborted(run.failure.value) else Completed)
            && (ran.value.Completed? ==> page.computedStats == PageStats(run.files)
                                         && page.mergedRouteGeojson == PageRoute(run.files))
            && (ran.value.Aborted? ==> page.computedStats == old(page.computedStats)
                                       && page.mergedRouteGeojson == old(page.mergedRouteGeojson)))
    ensures ran == Some(Completed) ==> !instance.page.HasUnprocessedFiles()
  {
    if instance.OtherInstance? {
      return None;
    }
    var page := instance.page;
    if !page.HasUnprocessedFiles() {
      return None;
    }
    var outcome := ProcessAdventureFiles(page, now);
    ran := Some(outcome);
    if outcome.Completed? {
      CompletedPageIsProcessed(page, now, old(Records(SortBySortOrder(page.activityFiles))));
    }
  }

  /** After a completed run no file of the page is unprocessed, so the
      next publish of the same page does not invoke processing again. */
  lemma CompletedPageIsProcessed(page: AdventurePage, now: Timestamp, before: seq<FileRecord>)
    requires var files := SortBySortOrder(page.activityFiles);
      && |before| == |files|
      && RunFiles(before, now).failure.None?
      && forall j :: 0 <= j < |files| ==> files[j].Record() == RunFiles(before, now).files[j]
    ensures !page.HasUnprocessedFiles()
  {
    var files := SortBySortOrder(page.activityFiles);
    RunCompletes(before, now);
    forall i | 0 <= i < |page.activityFiles| ensures page.activityFiles[i].processedAt.Some? {
      var f := page.activityFiles[i];
      assert f in multiset(page.activityFiles);
      assert f in multiset(files);
      var j :| 0 <= j < |files| && files[j] == f;
      assert f.Record().Processed();
    }
  }
}
