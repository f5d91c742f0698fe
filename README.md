# Adventure activity-file ingestion, in Dafny

This project models the part of the portfolio site that turns GPS track files
attached to an adventure (trip) page into statistics and a map route:

- **FIT and GPX parsing** (`Services`): `parse_fit_file` walks the frames a FIT reader
  yields, collecting one `[lon, lat, elevation]` point per `record` frame that has
  a position and keeping the statistics of the last `session` frame (with the
  22.2 m/s plausibility clamp on maximum speed, and all-zero statistics when no
  session frame exists); `parse_gpx_file` flattens tracks → segments → points and
  derives distance, moving time, elapsed time and average speed.
- **GeoJSON** (`Services`): one LineString Feature per file, a FeatureCollection per page.
- **Aggregation** (`Services.AggregateStats`): sums per key with Python's
  `or 0`, calories summed only over files that report them, maximum speed
  with `default=0`, average speed recomputed from the totals.
- **The processing run** (`Services.ProcessAdventureFiles`): files in
  `sort_order`; an unprocessed file is read, dispatched on its type (`fit`, and
  everything else as GPX), and stamped with its stats, route and the current
  time; a parse failure aborts the run before the page totals are written; the
  page's `computed_stats` and `merged_route_geojson` become the aggregate of the
  collected stats and the collection of the collected routes, or `None` when
  nothing was collected.
- **Models** (`Models`): `ActivityFile.save` infers the file type from the
  extension of a new file's name; `effective_distance_km`,
  `effective_elevation_gain_m` prefer manual entries over computed statistics;
  `date_display` picks one of four layouts.
- **The publish hook** (`Signals`): only an adventure page with at least one
  unprocessed file triggers a run.
- **The `duration` filter** (`AdventureTags`): seconds as `Xh MMm`, a dash when falsy.
- **The links migration** (`LinksMigration`): forward folds the three URL
  columns of a résumé project into a `links` list; backward writes each known
  link's URL back into its column.

The FIT/GPX byte decoders (`fitdecode`, `gpxpy`) are not modelled: their
outputs (frames with named fields; a GPX document with tracks, segments, points,
moving data, uphill/downhill and track durations) are the inputs of the model,
and a file's content is a `Blob` that says whether it can be read and what each
decoder makes of it. Numbers are exact reals; Python's `int()` is `Trunc`
(toward zero), and `divmod`/`//` by a positive divisor is Dafny's Euclidean
division, which agrees with Python's floor division there.

Imperative code is modelled imperatively: `ActivityFile`, `AdventurePage` and
`ResumeProject` are classes whose methods update their fields, and the loops of
`parse_fit_file`, `parse_gpx_file`, `process_adventure_files` and both
migration functions are `while` loops proved against recursive specification
functions (`FitParse`, `GpxParse`, `RunFiles`, `ForwardLinks`, `ApplyLinks`), about
which the remaining lemmas are stated.

## Model

| member | source | states |
|---|---|---|
| ActivityData.Trunc | adventures/services.py:59-60 | `int()` truncates toward zero: the result lies within one unit of its argument, on the side of zero |
| ActivityData.OrElse | adventures/services.py:50-52 | `x or d` on an optional number: a present non-zero value is kept, None and 0 give the default |
| Services.SemicirclesToDegrees | adventures/services.py:6-7 | the 2^31 semicircle range maps into [-180, 180] degrees and the sign is kept |
| Services.SemicirclesLinear | adventures/services.py:6-7 | the conversion is linear and sends ±2^31 to ±180 |
| Services.GetFitField | adventures/services.py:10-14 | a first-match scan of the frame's fields by name; `GetFitFieldFirstMatch` states what it returns |
| Services.GetFitFieldFirstMatch | adventures/services.py:10-14 | `_get_fit_field` returns the value of the first field with the name, and None when no field has it |
| Services.RecordElevation | adventures/services.py:39-41 | `enhanced_altitude` when present, else `altitude or 0.0` |
| Services.FramePoints | adventures/services.py:29-47 | a frame yields exactly one point iff it is a `record` data frame with both latitude and longitude, and the point is (lon, lat, elevation) in degrees |
| Services.FitPoints | adventures/services.py:29-47 | never more points than frames |
| Services.LastSession | adventures/services.py:49-66 | the chosen frame is a session frame of the file, and None means there is no session frame |
| Services.LastSessionStats | adventures/services.py:49-66 | the stats of the last session frame, None exactly when the file has no session frame |
| Services.FitStats | adventures/services.py:68-75 | complete, with integral gain, loss and calories; all zeros when there is no session frame |
| Services.FitParse | adventures/services.py:17-75 | the points are `FitPoints` of the frames, at most one per frame; the statistics are complete, the last session's when there is one and all zeros otherwise |
| Services.SessionStats | adventures/services.py:49-66 | all eight statistics present; elapsed `or 0`, moving `or elapsed`, max speed zeroed above 22.2 m/s, m/s to km/h by 3.6, distance in km, gain, loss and calories `int()` of `total_ascent`, `total_descent` and `total_calories` `or 0` |
| Services.FitFrameStep | adventures/services.py:29-66 | one more frame appends its points and replaces the statistics exactly when it is a session frame |
| Services.ParseFrame | adventures/services.py:29-66 | the loop body of `parse_fit_file` appends the frame's points and takes a session frame's statistics |
| Services.ParseFitFrames | adventures/services.py:17-75 | the reading loop computes `FitParse`: all record points in order and the last session's statistics, or zeros |
| Services.FitPointsAppend | adventures/services.py:29-47 | points of concatenated frame sequences concatenate |
| Services.FitPointsOfOneFrame | adventures/services.py:30-37 | a non-record frame, or a record without a position, adds no point |
| Services.LastSessionWins | adventures/services.py:49-66 | the statistics are those of the last session frame, whatever follows it |
| Services.NoSessionAllZero | adventures/services.py:68-73 | with no session frame every statistic is 0 |
| Services.MaxSpeedClampExamples | adventures/services.py:52-55 | 10 m/s reads 36 km/h; 25 m/s is discarded as a GPS artifact and reads 0 |
| Services.GpxCoordinates | adventures/services.py:95-99 | a GPX point becomes (longitude, latitude, elevation or 0) |
| Services.GpxCoordinatesAll | adventures/services.py:91-99 | one coordinate per point, position by position |
| Services.SegmentsPoints | adventures/services.py:93-94 | the points of a track's segments in document order; `SegmentsPointsMembers` characterises its contents |
| Services.TracksPoints | adventures/services.py:92-94 | the points of all tracks in document order; `TracksPointsMembers` and `TracksPointsAppend` characterise it |
| Services.ElapsedTime | adventures/services.py:107-111 | the total of the truthy track durations; non-negative durations give a non-negative total |
| Services.GpxStats | adventures/services.py:101-129 | calories None, max speed 0, elapsed time the sum of track durations; with moving data, distance is `moving_distance / 1000` and moving time `moving_time`, without it both 0; gain and loss `int()` of uphill and downhill, or 0; average speed distance/moving×3600 only when moving time is positive |
| Services.CollectGpxPoints | adventures/services.py:91-94 | the nested track/segment/point loops collect the coordinates of all points in document order |
| Services.CollectSegmentPoints | adventures/services.py:93-94 | the segment loop appends the coordinates of all the track's segment points |
| Services.AppendGpxPoints | adventures/services.py:94-99 | the point loop appends one coordinate per point |
| Services.GpxCoordinatesAllAppend | adventures/services.py:94-99 | converting concatenated point lists concatenates the results |
| Services.ParseGpxDocument | adventures/services.py:78-129 | the parser computes `GpxParse`: the collected points and the GPX statistics |
| Services.GpxParse | adventures/services.py:78-129 | the statistics are `GpxStats` of the document, with null calories and the summed track durations as elapsed time; one coordinate triple per collected point, position by position |
| Services.TracksPointsAppend | adventures/services.py:92-94 | points of concatenated track lists concatenate |
| Services.SegmentsPointsMembers | adventures/services.py:93-94 | a point is collected from a track iff it lies in one of its segments |
| Services.InSomeSegmentSplit | adventures/services.py:93-94 | lying in some segment splits into the earlier segments or the last one |
| Services.TracksPointsMembers | adventures/services.py:92-94 | a point is collected iff it lies in some segment of some track |
| Services.ElapsedTimeWithoutTimestamps | adventures/services.py:107-111 | tracks without a (truthy) duration contribute no elapsed time |
| Services.BuildGeojsonLineString | adventures/services.py:132-141 | a LineString Feature with empty properties whose coordinates are the given points |
| Services.MergeGeojsonFeatures | adventures/services.py:144-149 | a FeatureCollection holding the given features in order |
| Services.LineStringRoundTrip | adventures/services.py:132-141 | the coordinates of a built feature give the feature back |
| Services.WithKey | adventures/services.py:160-162 | the `if s.get('calories') is not None` filter keeps only stats that have the key |
| Services.SumOrZero | adventures/services.py:154-158 | `sum(s.get(k) or 0 ...)`, characterised by `SumOrZeroAppend`, `SumOrZeroSingle` and `SumOrZeroBounds` |
| Services.SumOrZeroBounds | adventures/services.py:154-158 | files without a value add nothing to a sum, and non-negative values give a non-negative total |
| Services.MaxOrZero | adventures/services.py:163 | an upper bound of every file's value `or 0` that is one of them, 0 for no files |
| Services.AggregateStats | adventures/services.py:152-178 | all keys present; distance, elapsed and moving time are the per-key `or 0` sums; gain and loss `int()` of their sums; calories `int()` of the sum over files that report them; max speed the maximum; average speed from the total distance and moving time, 0 without moving time |
| Services.SumOrZeroAppend | adventures/services.py:154-158 | the per-key sum is additive over concatenation |
| Services.SumWithKeyIsSumOrZero | adventures/services.py:160-162 | skipping files without a value does not change a `or 0` sum |
| Services.AggregateSingle | adventures/services.py:152-178 | aggregating one complete file's stats returns its summed figures and its maximum speed; the average speed is recomputed from the totals, distance / moving time × 3600 when the moving time is positive; gain, loss and calories must be integral for `int()` to keep them |
| Services.SumOrZeroSingle | adventures/services.py:154 | the sum over one file is its value `or 0` |
| Services.TruncIntegral | adventures/services.py:171-175 | `int()` of an integral total is that total |
| Services.CaloriesSkipNull | adventures/services.py:159-162 | a GPX file's null calories do not hide a FIT file's calories |
| Services.TwoFileTrip | adventures/services.py:152-178 | a FIT and a GPX file: distances and gains add, calories come from the FIT file, max speed is the larger |
| Services.InsertBySortOrder | adventures/services.py:196 | inserting keeps the sequence ordered by `sort_order` and adds exactly one file |
| Services.SortedCons | adventures/services.py:196 | a least file in front of an ordered sequence keeps it ordered |
| Services.InsertedLowerBound | adventures/services.py:196 | the head of an ordered sequence bounds everything inserted after it |
| Services.SortBySortOrder | adventures/services.py:196 | `order_by('sort_order')` is ordered and a permutation of the page's files |
| Services.DistinctPermutation | adventures/services.py:196 | a permutation of distinct files is distinct |
| Services.Records | adventures/services.py:196-219 | the stored rows of the files, position by position |
| Services.ParseFile | adventures/services.py:198-204 | an unreadable file fails with UnreadableSource; a `fit` file gives `FitParse` of the FIT decoder's frames or that decoder's error, any other type `GpxParse` of the GPX decoder's document or its error |
| Services.ParseActivityFile | adventures/services.py:198-204 | the read-and-dispatch step computes `ParseFile` |
| Services.Stamped | adventures/services.py:206-214 | the row keeps its identity, file, type and content and gets the stats, the LineString of the points and the current time |
| Services.ProcessFile | adventures/services.py:197-214 | a processed file is left as it is; an unprocessed one fails with its parse error or is stamped, and a success is processed |
| Services.Steps | adventures/services.py:197-214 | one step per file; `StepAt` gives the step of each index |
| Services.StepAt | adventures/services.py:197-214 | the step of file i is `ProcessFile` of that file |
| Services.RunOver | adventures/services.py:196-219 | a run keeps one row per file; `RunStep`, `RunFailsAt`, `RunAllSucceed` and `RunOverCompleted` give its content |
| Services.RunOverCompleted | adventures/services.py:196-219 | a run without failure took every step successfully and holds each step's row |
| Services.RunFiles | adventures/services.py:196-219 | the run over the files' own steps keeps one row per file |
| Services.CollectStats | adventures/services.py:216-217 | never more stats than files; `CollectAppend` and `NoStatsIff` give its content |
| Services.CollectRoutes | adventures/services.py:218-219 | never more routes than files; `CollectAppend`, `NoRoutesIff` and `RouteAt` give its content |
| Services.PageStats | adventures/services.py:221 | the aggregate of the collected stats, or None; `PageTotalsNoneIff` and `PageTotalsShape` characterise it |
| Services.PageRoute | adventures/services.py:222 | the collection of the collected routes, or None; `PageTotalsNoneIff` and `PageTotalsShape` characterise it |
| Services.ProcessAdventureFiles | adventures/services.py:181-227 | the files, in sort order, end as `RunFiles` of their rows; an abort leaves the page totals; a completed run writes `PageStats` and `PageRoute`; manual fields and dates are untouched |
| Services.ProcessInOrder | adventures/services.py:196-222 | the loop over the ordered files yields the run's rows, its outcome, and on completion the page totals of the processed rows |
| Services.PageTotals | adventures/services.py:221-222 | the page's values are `PageStats` and `PageRoute` of the rows whose stats and routes were collected |
| Services.ProcessLoop | adventures/services.py:196-219 | after the loop, the succeeded prefix holds its processed rows, the rest its old rows, and the first failure is the outcome |
| Services.Advance | adventures/services.py:197-219 | one iteration either stops at the file's parse error or extends the processed prefix and the collected lists |
| Services.CollectRow | adventures/services.py:216-219 | truthy stats and routes of a row are appended to the collected lists |
| Services.ProcessNext | adventures/services.py:197-214 | processing one file changes only that file, to its processed row on success |
| Services.ProcessFileInPlace | adventures/services.py:197-214 | the per-file update writes `ProcessFile` of its old row, and leaves the row on failure |
| Services.RunStep | adventures/services.py:196-214 | one more file extends the run by its processed row, or by its old row and the error |
| Services.CollectAppend | adventures/services.py:216-219 | collecting one more row appends its stats and route when present |
| Services.RunAllSucceed | adventures/services.py:196-219 | when every file succeeds the run completes with the processed rows |
| Services.RunFailsAt | adventures/services.py:196-214 | after the first failure the remaining rows are kept as they were and the run carries that error |
| Services.FirstFailure | adventures/services.py:196-214 | the prefix ending at the first failure carries that failure |
| Services.LoopIsRun | adventures/services.py:196-219 | the loop's final state is `RunFiles` of the rows it started from |
| Services.RunStopsAtFailure | adventures/services.py:196-214 | once a prefix has failed, the later files are not touched |
| Services.RunKeepsRows | adventures/services.py:206-214 | a run changes no file's identity, name, type or content, and leaves processed files exactly as they were |
| Services.RunCompletes | adventures/services.py:196-219 | a run completes iff every file processes, and then every file is processed with its own result |
| Services.RunStopsAtFirstFailure | adventures/services.py:196-214 | the first failing file's error aborts the run; earlier files are processed, it and later ones unchanged |
| Services.RerunIsNoOp | adventures/services.py:197 | after a completed run, a second run changes nothing and completes |
| Services.PageTotalsNoneIff | adventures/services.py:221-222 | the page's stats are None iff no file has stats, its route None iff no file has a route |
| Services.PageTotalsShape | adventures/services.py:221-222 | a page total is complete, and a merged route is a FeatureCollection of exactly the collected routes in order |
| Services.NoStatsIff | adventures/services.py:216-217 | nothing is collected iff no file has stats |
| Services.NoRoutesIff | adventures/services.py:218-219 | nothing is collected iff no file has a route |
| Services.CollectRoutesPrefix | adventures/services.py:218-219 | the routes of a prefix of the files are a prefix of all routes |
| Services.RouteAt | adventures/services.py:218-219 | a file's route sits in the collection right after the routes of the files before it |
| Services.MergedRouteOrder | adventures/services.py:218-222 | the merged route lists the files' routes in sort order |
| Models.LastDotIndex | adventures/models.py:69 | `rsplit('.', 1)` splits at the last dot |
| Models.ExtensionOf | adventures/models.py:69 | the extension has no dot and the name is the stem, a dot and the extension |
| Models.LowerChar | adventures/models.py:69 | ASCII upper-case letters map to lower case, everything else is kept |
| Models.Lower | adventures/models.py:69 | `lower()` character by character |
| Models.Unsaved | adventures/models.py:66 | `not self.pk`: no key, or the falsy key 0 |
| Models.InferFileType | adventures/models.py:68-71 | the lower-cased extension when it is `fit` or `gpx`; otherwise, and without a dot, the type stays |
| Models.SavedFileType | adventures/models.py:65-72 | inference only for a row with a file and a falsy key (None or 0); the type is `fit`, `gpx` or unchanged |
| Models.UpperCaseExtensionIsFit | adventures/models.py:68-71 | `x.b.FIT` is a FIT file: the last extension is used, case-insensitively |
| Models.NoExtensionKeepsDefault | adventures/models.py:68 | a name without a dot keeps the `gpx` default |
| Models.ResaveKeepsType | adventures/models.py:66 | saving a row again under a non-zero key never re-infers its type |
| Models.ZeroKeyReinfers | adventures/models.py:66-71 | a row whose key is 0 is treated as new, so `ride.fit` is inferred again as `fit` |
| Models.ActivityFile.constructor | adventures/models.py:46-63 | a new file row: no pk, type `gpx`, nothing processed |
| Models.ActivityFile.Record | adventures/models.py:46-63 | the row's stored columns |
| Models.ActivityFile.MarkProcessed | adventures/services.py:208-214 | the targeted update sets stats, route and processing time and nothing else |
| Models.ActivityFile.Save | adventures/models.py:65-72 | the type follows `SavedFileType`, a new row gets its pk, other columns are unchanged |
| Models.DateDisplayCaseOf | adventures/models.py:159-168 | single day iff no end or end equals start; same month, same year, different years exactly as the cascade of tests decides |
| Models.Effective | adventures/models.py:147-157 | a manual value wins; otherwise the computed key, or None without computed stats |
| Models.AdventurePage.EffectiveDistanceKm | adventures/models.py:147-151 | manual distance when set, else the computed `distance_km` |
| Models.AdventurePage.EffectiveElevationGainM | adventures/models.py:153-157 | manual elevation gain when set, else the computed `elevation_gain_m` |
| Models.AdventurePage.DateDisplay | adventures/models.py:159-168 | the layout chosen for the page's start and end dates |
| Models.AdventurePage.SaveTotals | adventures/services.py:224-227 | the page-level update writes the two computed columns and nothing else |
| Models.AdventurePage.HasUnprocessedFiles | adventures/signals.py:8 | some file of the page has no processing time |
| Signals.Footprint | adventures/signals.py:4-9 | an adventure page and all its files; nothing for another instance |
| Signals.ProcessActivityFilesOnPublish | adventures/signals.py:4-9 | another instance, or a page with no unprocessed file, changes nothing; otherwise a run happens with the effect of `ProcessAdventureFiles`: the dates and manual overrides are kept on every path, an aborted run keeps the page totals, a completed one writes them and leaves no unprocessed file |
| Signals.CompletedPageIsProcessed | adventures/signals.py:8 | after a completed run the unprocessed-files test is false, so the next publish does not run again |
| AdventureTags.DigitChar | adventures/templatetags/adventure_tags.py:13 | a digit below ten is its decimal character |
| AdventureTags.DigitOf | adventures/templatetags/adventure_tags.py:13 | the inverse of `DigitChar` |
| AdventureTags.NatToString | adventures/templatetags/adventure_tags.py:13 | `str` of a natural number: at least one digit, and a leading `0` only for `"0"` itself |
| AdventureTags.NatToStringValue | adventures/templatetags/adventure_tags.py:13 | the digits read back as the number |
| AdventureTags.IntToString | adventures/templatetags/adventure_tags.py:13 | `str` of an integer: at least one character, starting with a minus sign exactly for negative numbers |
| AdventureTags.IntToStringRoundTrip | adventures/templatetags/adventure_tags.py:13 | `str` of any integer, sign included, reads back as that integer |
| AdventureTags.ReadSigned | adventures/templatetags/adventure_tags.py:13 | a minus sign before digits reads as the negated value |
| AdventureTags.ReadUnsigned | adventures/templatetags/adventure_tags.py:13 | digits read as their value |
| AdventureTags.Pad2 | adventures/templatetags/adventure_tags.py:13 | `{m:02d}` is two digits whose value is m |
| AdventureTags.DurationParts | adventures/templatetags/adventure_tags.py:11-12 | hours and minutes bracket the truncated seconds: h·3600 ≤ t < (h+1)·3600 and minutes in 0..59 with h·3600 + m·60 ≤ t < h·3600 + m·60 + 60 |
| AdventureTags.Duration | adventures/templatetags/adventure_tags.py:7-13 | the dash iff the argument is falsy (None or 0) |
| AdventureTags.DurationReadsBack | adventures/templatetags/adventure_tags.py:11-13 | a truthy argument renders as hours, "h ", two-digit minutes, "m", and both numbers read back |
| AdventureTags.FractionOfASecond | adventures/templatetags/adventure_tags.py:9-13 | 0.5 s is truthy yet renders "0h 00m", and so does 59.9 s |
| AdventureTags.OneHourOneMinute | adventures/templatetags/adventure_tags.py:11-13 | 3661 s renders "1h 01m" |
| LinksMigration.UrlFields.Set | projects/migrations/0002_links_field.py:28 | `setattr` changes the one column and keeps the others |
| LinksMigration.LabelToField | projects/migrations/0002_links_field.py:23-26 | the backward table is the inverse of the forward one: each known label maps to its column, and nothing else maps |
| LinksMigration.ForwardLinksOver | projects/migrations/0002_links_field.py:12-16 | at most one link per table entry |
| LinksMigration.ForwardLinks | projects/migrations/0002_links_field.py:4-18 | at most three links |
| LinksMigration.ForwardLinksOrder | projects/migrations/0002_links_field.py:6-16 | live, github, blog post links in that order, each only for a non-empty URL |
| LinksMigration.ForwardLinksCarryColumns | projects/migrations/0002_links_field.py:12-16 | every link has a non-empty URL and a known label whose column holds that URL |
| LinksMigration.ApplyLink | projects/migrations/0002_links_field.py:26-28 | one link fails exactly when its label is known and it has no `url` key |
| LinksMigration.ApplyLinks | projects/migrations/0002_links_field.py:25-28 | the links applied in order until one fails; `ApplyLinksFails`, `ApplyLinksLastWins` and `UnknownLabelIgnored` give its result |
| LinksMigration.ApplyLinksAppend | projects/migrations/0002_links_field.py:25-28 | applying concatenated link lists applies them in turn, and an error stays |
| LinksMigration.ApplyLinksFails | projects/migrations/0002_links_field.py:25-28 | the backward step fails iff some link with a known label has no `url` key |
| LinksMigration.ApplyLinksLastWins | projects/migrations/0002_links_field.py:25-28 | each column gets the URL of the last link for it, and is kept when no link names it |
| LinksMigration.UnknownLabelIgnored | projects/migrations/0002_links_field.py:26-27 | a link with an unknown or missing label has no effect |
| LinksMigration.RoundTrip | projects/migrations/0002_links_field.py:4-29 | backward after forward succeeds and restores every non-empty column; from blank columns it restores the columns exactly |
| LinksMigration.RoundTripOnto | projects/migrations/0002_links_field.py:4-29 | the round trip onto any columns, field by field |
| LinksMigration.ApplyLinkFor | projects/migrations/0002_links_field.py:13-16 | the link a column produces writes that column back |
| LinksMigration.ApplyLinksErrorSticks | projects/migrations/0002_links_field.py:25-28 | after a missing URL the remaining links do not matter |
| LinksMigration.ResumeProject.constructor | projects/migrations/0002_links_field.py:4-18 | a project with its three columns and no links |
| LinksMigration.ResumeProject.Urls | projects/migrations/0002_links_field.py:12-14 | the three URL columns |
| LinksMigration.ResumeProject.SaveLinks | projects/migrations/0002_links_field.py:17-18 | saving the links leaves the columns |
| LinksMigration.ResumeProject.SaveUrls | projects/migrations/0002_links_field.py:28-29 | saving the columns leaves the links |
| LinksMigration.BuildLinks | projects/migrations/0002_links_field.py:12-16 | the inner loop builds `ForwardLinks` of the project's columns |
| LinksMigration.MigrateLinksForward | projects/migrations/0002_links_field.py:4-18 | every project's links become `ForwardLinks` of its columns and the columns are unchanged |
| LinksMigration.RestoreUrls | projects/migrations/0002_links_field.py:25-28 | the inner loop computes `ApplyLinks` of the project's columns and links |
| LinksMigration.MigrateLinksBackward | projects/migrations/0002_links_field.py:21-29 | projects before the first failure get their restored columns, later ones are unchanged, links are never changed, and the failure is reported |

## Left out

- Rounding (`round(…, n)`) and IEEE floating point: every number is an exact real, so the model's statistics are the unrounded values.
- The `fitdecode` and `gpxpy` libraries: frame decoding, UTF-8 decoding, `get_moving_data`, `get_uphill_downhill` and `get_duration` are inputs (a `Blob` says what each decoder yields, and a decoder's error is passed through as it is).
- A GPX track duration that is falsy (None or 0) adds nothing, as in the source; a negative duration is kept.
- `Services.ParseFile`: there is no separate error for an unknown file type, because the code sends every type other than `fit` to the GPX parser.
- The ORM: querysets, `update()` and `save()` are field assignments on the model objects; `super().save()` is the assignment of a primary key; `timezone.now()` is one `now` parameter for the whole run.
- In the source the in-memory file object gets `parsed_stats` and `route_geojson` but not `processed_at` (only the database row does); the model's objects stand for the stored rows and so get all three.
- Ties in `order_by('sort_order')`: the database may order equal keys either way; the model uses one stable insertion sort.
- NULL `sort_order`: the column is nullable, and where NULL keys sort depends on the database; the model takes every file's `sort_order` to be a non-null integer.
- `Services.ProcessAdventureFiles`: a Python exception during a run aborts it before the page-level update; the model returns the error as `Aborted` instead of raising it.
- `Stats` in the model cannot tell an empty dict from None; both count as falsy in `if activity_file.parsed_stats`, which is the only place the difference could matter.
- `Models.DateDisplayCaseOf`: the `strftime` texts are not produced, only the choice of layout.
- `Models.Lower`: only ASCII letters are lower-cased; Python's Unicode case mapping is not modelled.
- The publish hook runs the processing synchronously, as the code does; scheduling it in the background and concurrent publishes of the same page are not modelled.
- The `duration` filter takes `None` or a number; other Python values and their truthiness are not modelled.
- `LinksMigration`: every stored link is a JSON object; a link without a `url` key fails (Python's `KeyError`), and a `null` URL is not distinguished from a missing one.
- `LinksMigration.MigrateLinksBackward`: the projects are distinct objects; the rollback of the transaction after a failure is not modelled, so earlier projects stay saved in the model.
- The `AddField`/`RemoveField` schema operations of the migration and every other file of the repository (pages, waypoints, templates, admin, app wiring).
