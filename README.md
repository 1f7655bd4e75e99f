# Air-quality web map pipeline: a Dafny model of its processing core

The pipeline turns monthly pollutant prediction rasters (GeoTIFFs named
`YYYY_MM_POLLUTANT_interpolated.tif`) and ground-truth station measurements
into files for a web map:

- it converts each prediction raster into an `inferno`-coloured PNG and a
  bounds GeoJSON file holding the WGS84 display ring and the colour scale;
- it writes the station catalogue as one `stations_<pollutant>_<year>_<month>.geojson`
  point layer per pollutant and month;
- it samples every prediction raster at the stations inside the city's box
  and writes the stations enriched with `predicted_value`;
- it consolidates the per-pollutant bounds files of a city and year into one
  `bounds.json`, and the per-month station files into one file per pollutant,
  deleting the inputs behind guards;
- a stand-alone script converts a multi-band Sentinel-2 GeoTIFF into an RGB
  PNG and a bounds JSON file.

The model keeps the decisions these scripts make: file-name formats and
parsing, UTM zone detection from CRS strings, the colour-scale table, the
skip rule, the corner order (top-left, top-right, bottom-right, bottom-left)
and the closed ring, the station filter, the pixel-value guards, the bounds
and station consolidations and the deletion guards, the band selection, the
chain of reprojection fallbacks, the default output paths and the command
line. Everything that reads or writes files, every coordinate transformation
and every raster read is an input of the model: a directory is a listing of
names or a set, a JSON document is a datatype value, a transformation that
may raise is a function whose result is an `Option`.

Modules, one per concern:

- `Common`: Option/Result, ASCII digit and word classes, `str(n)`,
  `str.replace`, `str.split`.
- `GeoJson`: points, boxes, display corners, closed rings, features.
- `TifFilename`: the prediction file name pattern and its parser.
- `CrsZone`: both `extract_utm_zone` variants.
- `WebmapConverter`: `processing/png_converter_for_webmap.py`.
- `StationsGeojson`: `processing/convert_stations_to_geojson.py`.
- `StationPredictions`: `processing/extract_predictions_at_stations.py`.
- `Consolidate`: `processing/consolidate_files.py`.
- `GeotiffToPng`: `convert_geotiff_to_png.py`.

Loops in the source become methods with loops that are proved equal to
recursive specification functions. The names produced by one script are
proved to be read back by the next one wherever the source makes them
agree. The places where they do not agree are under "## Findings".

The extractor's `extract_utm_zone` only recognises the `UTM zone 33N` phrase.
A raster whose CRS prints as `EPSG:326xx` is therefore sampled with WGS84
coordinates (`StationPredictions.EpsgCodedRasterNotReprojected`). The model
keeps this behaviour as written. It is not listed as a finding, because the
code notes it as a deliberate fallback ("assume already in correct CRS").

## Model

| member | source | states |
|---|---|---|
| TifFilename.Parse | processing/png_converter_for_webmap.py:64-77 | a parsed name has a 4-digit year, a 2-digit month and a word-character pollutant, and is exactly the formatted name, or that name followed by `\n` as `$` allows |
| TifFilename.RoundTrip | processing/png_converter_for_webmap.py:70-76 | every valid (year, month, pollutant) formatted as `YYYY_MM_P_interpolated.tif` parses back to itself |
| TifFilename.RoundTripTrailingNewline | processing/png_converter_for_webmap.py:70-71 | a formatted name followed by one newline still parses to the same key |
| TifFilename.RejectsOtherNames | processing/extract_predictions_at_stations.py:49-56 | a name that is no formatted key (with or without a final newline) gives no match |
| CrsZone.ExtractUtmZone | processing/png_converter_for_webmap.py:132-151 | the leftmost `EPSG:32[67]dd` match wins when there is one; otherwise the leftmost `UTM zone <digits>[NS]` match; `None` exactly when neither pattern occurs |
| CrsZone.ExtractUtmZonePhrase | processing/extract_predictions_at_stations.py:112-120 | the leftmost `UTM zone <digits>[NS]` match, case-insensitive; `None` exactly when the phrase does not occur |
| CrsZone.EpsgCodeRoundTrip | processing/png_converter_for_webmap.py:136-142 | `EPSG:326zz`/`EPSG:327zz` yields zone zz and the hemisphere digit's meaning in the converter, and nothing in the extractor |
| CrsZone.UtmPhraseRoundTrip | processing/png_converter_for_webmap.py:144-149 | `UTM zone <z><N/S>` yields zone z and the hemisphere in both variants |
| CrsZone.EpsgBeforePhrase | processing/png_converter_for_webmap.py:136-149 | for every string holding both an EPSG code and a `UTM zone` phrase, the converter takes the leftmost code wherever the phrase stands and the extractor the leftmost phrase; they disagree exactly when the two name different zones |
| CrsZone.EpsgBeforePhraseExample | processing/png_converter_for_webmap.py:136-149 | an instance: `UTM zone 32N EPSG:32733` is 33S for the converter and 32N for the extractor |
| CrsZone.FirstMatchFound | processing/png_converter_for_webmap.py:137 | the search returns the first position where the pattern matches |
| GeoJson.DisplayRingShape | processing/png_converter_for_webmap.py:404-410 | the closed display ring has five points, ends where it starts, keeps the TL, TR, BR, BL corners and runs clockwise (signed area minus the box area) |
| GeoJson.CornersDisplayOrder | convert_geotiff_to_png.py:164-169 | the corners of a well-ordered box are in display order and span that box again |
| GeoJson.DisplayOrderIsCorners | convert_geotiff_to_png.py:164-169 | every display-order quadruple is the corner list of the box it spans |
| WebmapConverter.ScaleFor | processing/png_converter_for_webmap.py:55-61 | the scale of a pollutant: NO2 0..50, O3 20..80, SO2 0..10, PM2_5 0..35, PM10 0..50, every unlisted one 0..50, and vmin < vmax always |
| WebmapConverter.OutputNamesInjective | processing/png_converter_for_webmap.py:309-310 | with 2-character months, PNG names and bounds names each determine pollutant and month, and no PNG name is a bounds name |
| WebmapConverter.LowerMatchesIgnoreCase | processing/png_converter_for_webmap.py:258 | `name.lower() == city_name.lower()` holds exactly when the names are equal ignoring (ASCII) case |
| WebmapConverter.FindCityFeature | processing/png_converter_for_webmap.py:254-264 | the loop returns the first feature whose `name` or, failing that, `NAME` equals the city ignoring case; every earlier feature does not match, none matches when it returns nothing, and a non-string name raises |
| WebmapConverter.EpsgCrsExtent | processing/png_converter_for_webmap.py:366-375 | for a CRS string carrying an `EPSG:326zz`/`327zz` code both box corners go through zone zz and the code's hemisphere, whatever phrase is present; zone 00 leaves the box as is |
| WebmapConverter.PhraseCrsExtent | processing/png_converter_for_webmap.py:366-375 | for a CRS string without a code whose first phrase is `UTM zone <n><N/S>`, both corners go through zone n and that hemisphere; zone 0 leaves the box as is |
| WebmapConverter.UnprojectedCrsExtent | processing/png_converter_for_webmap.py:372-375 | a CRS string with neither form is taken as WGS84: the box is used as is |
| WebmapConverter.Wgs84CrsExtent | processing/png_converter_for_webmap.py:372-375 | `EPSG:4326` is such a string |
| WebmapConverter.ConvertSingleTif | processing/png_converter_for_webmap.py:275-433 | an unparsable name fails with `Could not parse filename: <name>`; Skipped exactly when parsing succeeds, skipping is on and both outputs exist; Converted exactly when the name parses, is not skipped, the boundary lookup does not raise, the raster is readable and, when a city feature was found, its `geometry` exists and `shape` accepts it, with the names `P_monthMM_inferno.png` and `P_monthMM_bounds.geojson` the message `Converted: <png>` plus ` (clipped to <city>)` when clipping, and the bounds document of the WGS84 extent (masked bounds when a city feature was found and masking succeeded, full bounds otherwise) with the city or `full` as `clipped_to`; every other failure reads `Error converting <path>: <exception>` |
| WebmapConverter.ConvertedBoundsRing | processing/png_converter_for_webmap.py:329-421 | a converted bounds file has one polygon whose ring is the closed TL, TR, BR, BL ring of the WGS84 extent; that extent comes from the masked bounds exactly when a city feature was found and masking succeeded, from the full bounds otherwise; the properties are the file's pollutant and month, the PNG's name, the pollutant's vmin and vmax, `inferno`, and the city when clipping or `full` |
| WebmapConverter.SkipMessagesMentionSkipped | processing/png_converter_for_webmap.py:316 | a skip message contains `Skipped` |
| WebmapConverter.CountsPartition | processing/png_converter_for_webmap.py:541-558 | converted, skipped and error counts add up to the number of files |
| WebmapConverter.Tally | processing/png_converter_for_webmap.py:541-558 | the counting loop computes the three counts from the messages and their sum is the number of files |
| WebmapConverter.SkippedPollutantMiscounted | processing/png_converter_for_webmap.py:550-554 | a file whose pollutant contains `Skipped` is converted, for any city whose boundary lookup does not raise, yet counted as skipped |
| WebmapConverter.SkippedPollutantExists | processing/png_converter_for_webmap.py:64-77 | `2024_01_Skipped_interpolated.tif` is such a file |
| WebmapConverter.ClassifyOutcome | processing/png_converter_for_webmap.py:550-558 | classifying the outcome itself agrees with the message test whenever `Skipped` occurs in the message exactly for skips, and differs for a converted file whose message contains `Skipped` |
| WebmapConverter.ConvertedCountIsConversions | processing/png_converter_for_webmap.py:550-555 | with the corrected classification the converted count is the number of conversions |
| StationsGeojson.RowToFeature | processing/convert_stations_to_geojson.py:15-27 | a row becomes a Point at [longitude, latitude] with exactly the four properties station_id, ground_truth_value, pollutant and period_key |
| StationsGeojson.RowFeatureRoundTrip | processing/convert_stations_to_geojson.py:15-27 | the row can be read back from its feature |
| StationsGeojson.CreateGeojson | processing/convert_stations_to_geojson.py:10-35 | the loop yields one feature per row, in order, each reading back as its row |
| StationsGeojson.PollutantToFilename | processing/convert_stations_to_geojson.py:37-39 | every `_` becomes `.`, nothing else changes, the length is kept and no `_` remains |
| StationsGeojson.PollutantToFilenameCases | processing/convert_stations_to_geojson.py:38-39 | PM2_5 is written PM2.5 and a name without `_` is kept |
| StationsGeojson.PySlice | processing/convert_stations_to_geojson.py:65-66 | a slice never exceeds the requested width and is the plain subsequence when in range |
| StationsGeojson.PeriodKeySlices | processing/convert_stations_to_geojson.py:64-66 | `YYYY-MM` gives back YYYY and MM; any key gives a year of at most 4 and a month of at most 2 characters |
| StationsGeojson.WrittenKeys | processing/convert_stations_to_geojson.py:63-80 | the files written are exactly the file names of the groups |
| StationsGeojson.WriteGroups | processing/convert_stations_to_geojson.py:58-90 | the loop writes one file per group, counts the groups as files and sums the group sizes as stations |
| StationsGeojson.WrittenFileIsLastGroup | processing/convert_stations_to_geojson.py:72-80 | each written file holds the features of the last group mapped to that name, since later writes overwrite earlier ones |
| StationPredictions.FilterStationsByBounds | processing/extract_predictions_at_stations.py:249-276 | without bounds every station is kept; otherwise, in order, the stations inside the box widened by the buffer on all four sides |
| StationPredictions.KeptMembers | processing/extract_predictions_at_stations.py:266-271 | a feature is kept exactly when it is an input feature inside the box |
| StationPredictions.KeptAppend | processing/extract_predictions_at_stations.py:266-271 | filtering distributes over concatenation, so order is preserved |
| StationPredictions.FilterKeepsCityStations | processing/extract_predictions_at_stations.py:257-271 | with a non-negative buffer every station inside the city box survives, and every survivor is inside the widened box |
| StationPredictions.ValueGuard | processing/extract_predictions_at_stations.py:162-165 | a pixel value is returned exactly when it is finite and within ±1e10, and then unchanged |
| StationPredictions.PhraseCodedRasterReprojected | processing/extract_predictions_at_stations.py:137-143 | a raster whose CRS is not `EPSG:4326` and whose first `UTM zone <z><N/S>` phrase has z >= 1 is sampled at the station's UTM coordinates for zone z and that hemisphere |
| StationPredictions.UnprojectedRasterSampledAtLonLat | processing/extract_predictions_at_stations.py:137-148 | without CRS, in `EPSG:4326`, or with no UTM phrase, the station is sampled at its longitude and latitude |
| StationPredictions.EpsgCodedRasterNotReprojected | processing/extract_predictions_at_stations.py:137-146 | a raster whose CRS string is `EPSG:326zz` or `EPSG:327zz` is sampled at unprojected lon/lat |
| StationPredictions.ExtractPredictionAtPoint | processing/extract_predictions_at_stations.py:123-169 | a value comes back exactly when the raster opens, the pixel `rowcol` gives is inside the grid and its value passes the guard; the value is then that pixel's value, within ±1e10 |
| StationPredictions.TifBoundsWgs84 | processing/extract_predictions_at_stations.py:224-246 | bounds are missing exactly when the raster cannot be read; for a projected CRS with a usable phrase zone the lower-left and upper-right corners go through UTM-to-WGS84 for that zone; otherwise they are the raster bounds as is |
| StationPredictions.StationsAndBoundsShareFrame | processing/extract_predictions_at_stations.py:137-148 | the filter box and the sampled point use the same frame: with mutually inverse conversions, a station's raster coordinates, converted back the way the bounds corners are (lines 233-241), are the station itself, for every CRS |
| StationPredictions.Enriched | processing/extract_predictions_at_stations.py:344-351 | the geometry is kept, every other property is kept, and `predicted_value` is added: the value, or null |
| StationPredictions.CountPredicted | processing/extract_predictions_at_stations.py:355-356 | the count of stations with a prediction is at most the number of stations |
| StationPredictions.CountPredictedIsNonNull | processing/extract_predictions_at_stations.py:341-356 | stations with predictions are exactly the enriched features whose predicted_value is not null |
| StationPredictions.ProcessPollutant | processing/extract_predictions_at_stations.py:295-380 | one pass of the pollutant loop: nothing when the raster or the station file is missing or no station survives the filter, otherwise the counts, output name and enriched features of PollutantResult |
| StationPredictions.EnrichFeatures | processing/extract_predictions_at_stations.py:333-356 | the loop builds the enriched features and counts the predictions, never more than the stations |
| StationPredictions.TifName | processing/extract_predictions_at_stations.py:296 | the raster file name it looks for parses back to its (year, month, pollutant) |
| StationPredictions.PM25LookupNeverWritten | processing/extract_predictions_at_stations.py:303 | for PM2_5 the station file looked up differs from every file the station writer produces |
| StationPredictions.StationsFilenameFor | processing/extract_predictions_at_stations.py:303 | the corrected lookup is the writer's name for that pollutant and `YYYY-MM` period, and agrees with the source's lookup for pollutants without `_` |
| StationPredictions.MonthDirRoundTrip | processing/extract_predictions_at_stations.py:427-430 | `month_MM` gives back MM, and a directory not starting with `month_` gives nothing |
| StationPredictions.PollutantResultFacts | processing/extract_predictions_at_stations.py:294-378 | a pollutant has a result only when its raster and station file exist and some station survives the filter; its counts are ordered and `filtered_stations` is the number of written features, each carrying predicted_value; with city bounds the written features are exactly the enhanced stations of the file inside the widened city box, in file order, and every station inside the city box is among them |
| StationPredictions.ProcessCityYearMonth | processing/extract_predictions_at_stations.py:279-382 | the loop's result has a key exactly for the processed pollutants that produced output, each with that pollutant's result |
| StationPredictions.SumsOrdered | processing/extract_predictions_at_stations.py:489-492 | the total with predictions never exceeds the total processed |
| StationPredictions.Totals | processing/extract_predictions_at_stations.py:489-492 | the loop sums filtered stations and stations with predictions, and the second sum is at most the first |
| Consolidate.FilterMembers | processing/consolidate_files.py:39 | a listing filter keeps exactly the names satisfying the pattern |
| Consolidate.ConsolidatedCoordinates | processing/consolidate_files.py:48-73 | the consolidated coordinates are the first two numbers of the first four points of the first file's outer ring; they are missing (the script raises) exactly when the feature, the ring, four points or two numbers are missing |
| Consolidate.BuildPollutantTable | processing/consolidate_files.py:51-62 | the loop computes the pollutant table of the files in order |
| Consolidate.TableStepFacts | processing/consolidate_files.py:55-62 | one file adds its pollutant; a known pollutant leaves the table as it is; a new one is appended with that file's vmin, vmax and colormap, `inferno` when absent |
| Consolidate.TableKeys | processing/consolidate_files.py:51-62 | the table's keys are its order without repetition, and every file's pollutant is a key |
| Consolidate.TableFirstOccurrence | processing/consolidate_files.py:57-62 | each pollutant's entry comes from the first file naming it |
| Consolidate.TableNoneStays | processing/consolidate_files.py:52-56 | once a file raises, the whole consolidation raises |
| Consolidate.ConsolidateCityYear | processing/consolidate_files.py:38-80 | no bounds files, no output; otherwise `bounds.json` holds the city, the year, the first file's coordinates and the table, or the script raises on a malformed file |
| Consolidate.ConverterDocFacts | processing/consolidate_files.py:55-61 | a converter bounds document yields its pollutant and its scale |
| Consolidate.ConverterTable | processing/consolidate_files.py:51-62 | on converter output the table has every pollutant with its scale from the converter's table |
| Consolidate.ConsolidatingConverterOutput | processing/consolidate_files.py:38-75 | consolidating converter output always succeeds: the coordinates are the TL, TR, BR, BL corners of the first raster's extent and every pollutant appears with its scale |
| Consolidate.ConsolidatingConvertedTifs | processing/consolidate_files.py:38-75 | for any directory of rasters that convert_single_tif converted, in any listing order, the consolidation of the files it returned never raises, its coordinates are TL, TR, BR, BL of the first conversion's WGS84 extent, and every converted pollutant maps to its scale |
| Consolidate.RemoveMatching | processing/consolidate_files.py:109-112 | the unlink loop removes exactly the matching names, keeps the others in listing order, and counts the removed ones, so kept plus removed is the listing |
| Consolidate.DeleteOldBoundsFiles | processing/consolidate_files.py:102-112 | without `bounds.json` nothing is deleted; with it exactly the `*_bounds.geojson` files go, the rest stays in listing order with `bounds.json` among it, and the count is the number of deleted names |
| Consolidate.WebpOfConverterImage | processing/consolidate_files.py:135 | the WebP twin of a converter PNG is `P_monthMM_inferno.webp` |
| Consolidate.DeletePngFiles | processing/consolidate_files.py:131-138 | exactly the PNGs with a WebP twin are deleted, in listing order, every deleted PNG's twin remains, and the count is the number of deleted names |
| Consolidate.Visits | processing/consolidate_files.py:26-30 | the nested city and year loops visit every pair of a listed city and a listed year, and nothing else |
| Consolidate.VisitsDistinct | processing/consolidate_files.py:26-30 | with no city and no year repeated, no directory is visited twice |
| Consolidate.CityYearsDistinct | processing/consolidate_files.py:26-27 | Bologna, Frascati, Milano and 2024, 2025 give six distinct directories |
| Consolidate.BoundsPassFacts | processing/consolidate_files.py:29-80 | the pass writes only the consolidation of a visited existing directory, raises exactly when some visited directory's consolidation raises, and without a raise writes every visited directory whose consolidation succeeds |
| Consolidate.ConsolidateBoundsFiles | processing/consolidate_files.py:21-85 | the nested loops over the three cities and two years equal the pass over their visits, skipping missing directories and stopping at a raise |
| Consolidate.SweepFacts | processing/consolidate_files.py:96-112 | when no directory is visited twice, each visited existing directory holds what the per-directory pass leaves, the others are untouched, no directory appears or disappears, and a shrinking pass counts nonnegatively |
| Consolidate.DeleteAllOldBoundsFiles | processing/consolidate_files.py:88-114 | the nested loops apply the one-directory deletion to each existing visited directory and total the counts |
| Consolidate.DeleteAllPngFiles | processing/consolidate_files.py:117-145 | the nested loops apply the one-directory PNG deletion to each existing visited directory and total the counts |
| Consolidate.WebpNotPng | processing/consolidate_files.py:135-137 | a WebP twin is never itself a PNG, so it is never deleted |
| Consolidate.PollutantFromStem | processing/consolidate_files.py:162-169 | a stem mentioning PM2.5 or PM2_5 is grouped as PM2.5, any other under its second `_`-separated part |
| Consolidate.StemOfWrittenFile | processing/consolidate_files.py:158-169 | every file the station writer produces is picked up and grouped under its own pollutant, PM2_5 under PM2.5 |
| Consolidate.GroupStationFiles | processing/consolidate_files.py:157-173 | the loop computes the grouping of the files in order |
| Consolidate.GroupsNoneStays | processing/consolidate_files.py:160-169 | once a file cannot be grouped, the grouping fails |
| Consolidate.GroupStepFacts | processing/consolidate_files.py:171-173 | one file is appended to its pollutant's list, which is created and ordered last when new, and other lists are unchanged |
| Consolidate.GroupsKeys | processing/consolidate_files.py:171-175 | the groups' keys are their first-occurrence order without repetition |
| Consolidate.GroupsCover | processing/consolidate_files.py:160-173 | every file is in the group of its own pollutant |
| Consolidate.GroupsOnlyOwn | processing/consolidate_files.py:160-173 | a group holds only files of its pollutant |
| Consolidate.GroupsTotal | processing/consolidate_files.py:160-173 | the group sizes add up to the number of files |
| Consolidate.ConcatAppend | processing/consolidate_files.py:183-187 | chaining feature lists distributes over concatenation |
| Consolidate.ConcatLength | processing/consolidate_files.py:183-187 | the chained list's length is the sum of the files' lengths |
| Consolidate.ConcatLayout | processing/consolidate_files.py:183-187 | each file's features appear as a block, after those of every earlier file |
| Consolidate.ConcatFeatures | processing/consolidate_files.py:183-187 | the extend loop builds the chained list, whose length is the sum of the lengths |
| Consolidate.ConsolidatedNamesInjective | processing/consolidate_files.py:196 | different pollutants get different `stations_<pollutant>.geojson` files |
| Consolidate.WriteConsolidated | processing/consolidate_files.py:180-198 | the writing loop gives each pollutant of the order its file with its chained features and count, and writes no other file |
| Consolidate.ConsolidateStationFiles | processing/consolidate_files.py:148-200 | for each pollutant the consolidated file holds the chained features of its files, in order, and their total count, and there is no other consolidated file |
| Consolidate.DeleteOldStationFiles | processing/consolidate_files.py:205-230 | without consolidated files nothing is deleted; otherwise exactly the station files in the per-month directory go, and it is reported removed exactly when nothing else remains, which also covers a directory that is already gone |
| GeotiffToPng.ReadCount | convert_geotiff_to_png.py:58 | the number of bands read is between 4 and 12: the band count capped at 12, and 4 below that |
| GeotiffToPng.ReadBandsAsWritten | convert_geotiff_to_png.py:58-61 | reading succeeds exactly for rasters with at least four bands |
| GeotiffToPng.ReadBands | convert_geotiff_to_png.py:58-61 | the corrected reading takes every band up to twelve, never more than exist, and agrees with the source from four bands on |
| GeotiffToPng.PyIndex | convert_geotiff_to_png.py:69-71 | a list index is valid exactly within -len..len-1 and negative ones count from the end |
| GeotiffToPng.SelectBands | convert_geotiff_to_png.py:67-91 | the chosen bands exist; with three explicit indices a selection exists exactly when all three are valid Python indices and it is those bands, negative ones counted from the end; otherwise B4, B3, B2 (positions 3, 2, 1) from four bands on, positions 0, 1, 2 for three bands, the first band as grey for one or two bands, and an error for none |
| GeotiffToPng.DefaultBandsAlwaysSentinel | convert_geotiff_to_png.py:73-91 | after a successful read the Sentinel-2 choice B4, B3, B2 is always taken |
| GeotiffToPng.FewBandsIntended | convert_geotiff_to_png.py:79-88 | 1- to 3-band rasters fail as written; with the corrected reading 3 bands are RGB and 1 or 2 bands are grey |
| GeotiffToPng.NorthUpPixelCorners | convert_geotiff_to_png.py:271-284 | for a north-up transform the pixel corners are the TL, TR, BR, BL corners of the raster's box, in display order |
| GeotiffToPng.CornersAsWritten | convert_geotiff_to_png.py:144-284 | no reprojection gives the pixel corners; a successful transform_bounds gives the box's corners; otherwise pyproj's result, or else the source-CRS pixel corners |
| GeotiffToPng.ResolveCorners | convert_geotiff_to_png.py:144-284 | the corrected chain: whenever one of transform_bounds, rasterio and pyproj succeeds the corners are those of a successful one, never the source-CRS pixels; transform_bounds wins when it succeeds, and rasterio's four corners when transform_bounds fails and they exist; the pixel corners remain when no reprojection is needed or all three fail |
| GeotiffToPng.RasterioResultDiscarded | convert_geotiff_to_png.py:200-272 | when rasterio's transform succeeds and pyproj fails, the source gives the source-CRS pixel corners and the corrected chain gives rasterio's corners |
| GeotiffToPng.RasterioResultDiscardedExample | convert_geotiff_to_png.py:200-272 | a UTM raster then gets a top-left corner of (500000, 4600000) instead of (15.0, 41.5): as written the corners come from no successful transformation |
| GeotiffToPng.LastIndex | convert_geotiff_to_png.py:135 | the last position of a character, or -1 when it does not occur |
| GeotiffToPng.SplitExt | convert_geotiff_to_png.py:135 | root and extension concatenate to the path; the extension is empty or a dot followed by neither `/` nor `.` |
| GeotiffToPng.SplitExtOfFileName | convert_geotiff_to_png.py:135 | `dir/name.ext` splits into `dir/name` and `.ext` |
| GeotiffToPng.DefaultPaths | convert_geotiff_to_png.py:134-136 | `dir/name.ext` gets `dir/name.png` and `dir/name_bounds.json` |
| GeotiffToPng.Convert | convert_geotiff_to_png.py:20-324 | a conversion uses the given or default output paths and the selected bands, and writes one polygon: the closed ring of the resolved corners; it raises exactly when no band selection exists or the raster has no CRS |
| GeotiffToPng.ConvertedRingCloses | convert_geotiff_to_png.py:291-308 | the ring has five points ending where it starts; for a north-up raster not reprojected it is the closed display ring of the raster's box |
| GeotiffToPng.Strip | convert_geotiff_to_png.py:343 | stripping never lengthens, leaves no white space at either end, and keeps a string without white space |
| GeotiffToPng.Digits | convert_geotiff_to_png.py:343 | the digits of a literal, and a digit string unchanged |
| GeotiffToPng.Unsigned | convert_geotiff_to_png.py:343 | a non-empty digit string reads as its decimal value |
| GeotiffToPng.PyIntOfDigits | convert_geotiff_to_png.py:343 | `int()` of a non-empty run of decimal digits is the number they spell, leading zeros allowed |
| GeotiffToPng.PyIntOfNegativeDigits | convert_geotiff_to_png.py:343 | `int()` of a minus sign followed by digits is the negated number, so negative band indices reach the band selection |
| GeotiffToPng.PyIntRefuses | convert_geotiff_to_png.py:342-346 | `None` and the empty string are not integers |
| GeotiffToPng.CommandLineAsWritten | convert_geotiff_to_png.py:327-346 | the usage exit happens exactly for fewer than two arguments |
| GeotiffToPng.ParseCommandLine | convert_geotiff_to_png.py:327-346 | the corrected command line never crashes; the paths come from positions 1 to 3 with `None` meaning absent; band indices are taken exactly when positions 4 to 6 all hold integers; it agrees with the source except with exactly six arguments |
| GeotiffToPng.SixArgumentsCrash | convert_geotiff_to_png.py:338-343 | with six arguments and two valid indices the source raises IndexError, and the corrected one runs with the default bands |
| GeotiffToPng.DocumentedExample | convert_geotiff_to_png.py:331-332 | `file.geotiff None None 3 2 1` means default outputs and bands 3, 2, 1 |

## Left out

- UTM to WGS84 and WGS84 to UTM formulas (`utm_to_wgs84`, `wgs84_to_utm`, `transform_geojson_to_utm`): floating-point geodesy; they are function parameters.
- Raster reading, boundary clipping with `rio_mask.mask`, `rowcol`, `transform_bounds`, rasterio's `transform` and pyproj: library calls. Their results are inputs, and a call that raises is a `None` input. shapely's `shape` is different: whether it accepts a boundary feature's geometry is the `Present(shapeable)` field of that feature, and a feature without `geometry` is `Absent`; either failure makes the conversion fail, since neither is inside the `try` around the mask.
- PNG rendering: percentile normalisation, gamma, the inferno colormap, the NaN/±1e10 alpha mask of the converter, `Image.save`. These are floating-point image work. The model keeps only which bands and which scale are used.
- `load_config` and its YAML file: configuration I/O; `CLIP_TO_BOUNDARY` is a field of the converter's environment.
- `load_ground_stations` and all JSON reading and writing: file I/O. Documents are decoded values, and a missing file is modelled by its absence.
- A city boundary file that is not valid JSON is modelled: the conversion then fails (`None` in the converter's boundary files).
- StationPredictions.MonthData: holds decoded station files only; a station file that is not valid JSON makes `json.load` raise uncaught at processing/extract_predictions_at_stations.py:65, which ends the extractor, and the model has no such case.
- Consolidate.ConsolidateStationFiles: requires every listed station file to be decoded; a file that is not valid JSON makes the script raise at processing/consolidate_files.py:186, and the model has no such case.
- Consolidate.ConsolidateCityYear: bounds files are decoded values; one that is not valid JSON makes the script raise at processing/consolidate_files.py:46 or :54, and the model has no such case (malformed but decoded documents are modelled).
- Consolidate.DeleteOldStationFiles: an empty listing stands for both an empty and a missing station directory, so `dirRemoved` means that no directory remains; for a directory that is already gone the source's `exists()` test at processing/consolidate_files.py:228 skips `rmdir`, which the model does not distinguish.
- `main`'s sequence of passes is not modelled. Each city-and-year pass takes its own map of directories, so the `bounds.json` files written by the first pass are not carried into the deletion pass's listings. In the source, an exception in the first pass ends the script before any deletion runs.
- `find_tif_files` and `find_available_data` directory walks, `mkdir`, `exists` and `unlink`: file-system plumbing. Directories are sets or listings of names, and deletions return the remaining listing.
- `main` drivers beyond the counters, totals and command line: printing, progress messages, argument parsing via argparse.
- `processing/png_to_webp.py`, the `fix_*` and `verify_and_fix_bounds.py` scripts and the web viewer are not part of this model.
- Traceback text in the converter's error message: `failureText` stands for `str(e)` plus the traceback.
- `int()` accepts non-ASCII Unicode digits and `strip()` removes Unicode white space. The model covers the ASCII white space (including `\x1c`-`\x1f`) and ASCII digits only.
- `\d` in the file-name patterns (processing/png_converter_for_webmap.py:70, processing/extract_predictions_at_stations.py:49) and in the CRS patterns (processing/png_converter_for_webmap.py:137,145, processing/extract_predictions_at_stations.py:115) matches any Unicode decimal digit. The model accepts ASCII digits only.
- `re.IGNORECASE` folds some non-ASCII letters. The model folds ASCII only.
- WebmapConverter.Lower: the city-name comparison folds ASCII letters only; Python's `str.lower()` maps every Unicode letter and may change the length (`'İ'.lower()` has two characters).
- Coordinates are reals: NaN and infinite coordinates and float rounding are not modelled. Pixel values do model NaN, infinities and the ±1e10 bounds.
- GeotiffToPng.SplitExt: models POSIX `os.path.splitext`, which splits at `/` only; on Windows (`ntpath`, the platform convert_geotiff_to_png.py:16-18 singles out) `\` and a drive colon also separate path components, and the model does not cover that.
- GeotiffToPng.Convert: does not model that the PNG has already been written when `src_crs.to_string()` raises for a raster without CRS.
- GeotiffToPng.Convert: uses the corrected band reading and corner chain. The source's behaviour is CornersAsWritten and ReadBandsAsWritten.
- StationPredictions.ProcessCityYearMonth: uses the corrected station-file lookup StationsFilenameFor. The source's name is LookupStationsFilename, so for PM2_5 the source finds no station file and produces no result.
- StationPredictions.PollutantResult: uses the corrected lookup StationsFilenameFor; its PM2_5 results do not occur in the source.
- StationPredictions.ProcessPollutant: uses the corrected lookup StationsFilenameFor; its PM2_5 results do not occur in the source.
- StationPredictions.PollutantResultFacts: is stated about the corrected lookup StationsFilenameFor; for PM2_5 the source produces nothing to state it about.

## Findings

| source | as written | input that shows it | evidently intended | confidence | as-written member | corrected member |
|---|---|---|---|---|---|---|
| processing/extract_predictions_at_stations.py:303 | the station file is looked up as `stations_{pollutant}_{year}_{month}.geojson` with the raster's pollutant name | pollutant `PM2_5`, any year and month: the lookup is `stations_PM2_5_2024_01.geojson`, while convert_stations_to_geojson.py:69-72 writes `stations_PM2.5_2024_01.geojson` | look up the name the station writer produces, with `_` written as `.` | not executed | StationPredictions.PM25LookupNeverWritten | StationPredictions.StationsFilenameFor |
| convert_geotiff_to_png.py:58 | `bands_to_read = max(4, min(num_bands, 12))` reads bands 1..4 even from a raster with fewer bands | a 3-band RGB or 1-band GeoTIFF: `src.read(4)` raises and the 3-band and single-band branches (lines 79-88) are unreachable | read `min(num_bands, 12)` bands, so those branches handle small rasters | not executed | GeotiffToPng.ReadBandsAsWritten | GeotiffToPng.ReadBands |
| convert_geotiff_to_png.py:341-343 | `if len(sys.argv) >= 6:` then reads `sys.argv[6]`, and only ValueError is caught | `convert_geotiff_to_png.py in.tif None None 3 2` (six entries): IndexError ends the script | `len(sys.argv) >= 7`, the three-index form of the usage line | not executed | GeotiffToPng.SixArgumentsCrash | GeotiffToPng.ParseCommandLine |
| convert_geotiff_to_png.py:226-272 | the pyproj attempt runs after rasterio's `transform` whether or not that succeeded, and its failure branch overwrites `bounds_coords` with source-CRS corners | a UTM raster where transform_bounds fails, rasterio's transform succeeds and pyproj fails: the bounds are written in metres | pyproj only when rasterio's transform fails, raw corners only when both fail | not executed | GeotiffToPng.RasterioResultDiscarded | GeotiffToPng.ResolveCorners |
| processing/png_converter_for_webmap.py:550-554 | a successful conversion is counted as skipped when its message contains `Skipped` | `2024_01_Skipped_interpolated.tif` converted: its message `Converted: Skipped_month01_inferno.png` contains `Skipped` | count by what `convert_single_tif` did, not by words in the message | not executed | WebmapConverter.SkippedPollutantMiscounted | WebmapConverter.ClassifyOutcome |
