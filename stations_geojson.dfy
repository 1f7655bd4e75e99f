/** The conversion of the ground-station catalogue into one GeoJSON file of
    Point features per pollutant and period: the feature of a row, the
    file-name form of a pollutant, the year and month taken from the period
    key, and the file and station counters. Reading the parquet catalogue and
    grouping it are inputs. */
module StationsGeojson {
  import opened Common
  import opened GeoJson

  /** One catalogue row after the casts of the source (`str(...)`, `float(...)`). */
  datatype StationRow = StationRow(
    stationId: string, longitude: real, latitude: real,
    groundTruthValue: real, pollutant: string, periodKey: string)

  /** The feature of a row: a Point at `[longitude, latitude]` with exactly
      four properties. */
  function RowToFeature(r: StationRow): (f: Feature)
    ensures f.point == LngLat(r.longitude, r.latitude)
    ensures f.properties.Keys == {"station_id", "ground_truth_value", "pollutant", "period_key"}
    ensures |f.properties| == 4
  {
    Feature(LngLat(r.longitude, r.latitude), map[
      "station_id" := JStr(r.stationId),
      "ground_truth_value" := JNum(r.groundTruthValue),
      "pollutant" := JStr(r.pollutant),
      "period_key" := JStr(r.periodKey)])
  }

  /** Reads a row back from a station feature; `None` when a property is
      missing or has the wrong JSON type. */
  function FeatureToRow(f: Feature): Option<StationRow>
  {
    var p := f.properties;
    if "station_id" in p && p["station_id"].JStr? && "ground_truth_value" in p && p["ground_truth_value"].JNum?
       && "pollutant" in p && p["pollutant"].JStr? && "period_key" in p && p["period_key"].JStr?
    then Some(StationRow(p["station_id"].str, f.point.lng, f.point.lat,
                         p["ground_truth_value"].num, p["pollutant"].str, p["period_key"].str))
    else None
  }

  /** A feature written for a row gives back that row: nothing of the row is lost. */
  lemma RowFeatureRoundTrip(r: StationRow)
    ensures FeatureToRow(RowToFeature(r)) == Some(r)
  {
  }

  /** The loop of create_geojson_from_df: one feature per row, in row order. */
  method CreateGeojson(rows: seq<StationRow>) returns (features: seq<Feature>)
    ensures |features| == |rows|
    ensures forall i :: 0 <= i < |rows| ==> features[i] == RowToFeature(rows[i])
    ensures forall i :: 0 <= i < |rows| ==> FeatureToRow(features[i]) == Some(rows[i])
  {
    features := [];
    var i := 0;
    while i < |rows|
      invariant 0 <= i <= |rows|
      invariant |features| == i
      invariant forall j :: 0 <= j < i ==> features[j] == RowToFeature(rows[j])
    {
      features := features + [RowToFeature(rows[i])];
      i := i + 1;
    }
  }

  /** `pollutant.replace('_', '.')`: same length, every underscore a dot, nothing else changed. */
  function PollutantToFilename(pollutant: string): (r: string)
    ensures |r| == |pollutant|
    ensures forall i :: 0 <= i < |pollutant| ==> r[i] == (if pollutant[i] == '_' then '.' else pollutant[i])
    ensures '_' !in r
  {
    ReplaceCharAt(pollutant, '_', '.');
    ReplaceAll(pollutant, "_", ".")
  }

  /** Names without an underscore (NO2, O3, PM10) are kept; PM2_5 becomes PM2.5. */
  lemma PollutantToFilenameCases(pm25: string, plain: string)
    requires pm25 == "PM2_5" && '_' !in plain
    ensures PollutantToFilename(pm25) == "PM2.5"
    ensures PollutantToFilename(plain) == plain
  {
    var r := PollutantToFilename(pm25);
    assert r[3] == '.' && r[0] == 'P' && r[1] == 'M' && r[2] == '2' && r[4] == '5';
  }

  /** Python's `s[i:j]` for `0 <= i <= j`: both ends clamped to the length. */
  function PySlice(s: string, i: nat, j: nat): (r: string)
    requires i <= j
    ensures |r| <= j - i
    ensures j <= |s| ==> r == s[i..j]
  {
    var lo := if i < |s| then i else |s|;
    var hi := if j < |s| then j else |s|;
    s[lo..hi]
  }

  /** `period_key[:4]` and `period_key[5:7]`. */
  function PeriodYear(periodKey: string): string { PySlice(periodKey, 0, 4) }

  function PeriodMonth(periodKey: string): string { PySlice(periodKey, 5, 7) }

  /** On a `YYYY-MM` key the slices recover the year and the month; on any key
      they are at most four and two characters long. */
  lemma PeriodKeySlices(year: string, month: string, key: string)
    ensures |year| == 4 && |month| == 2 ==>
      PeriodYear(year + "-" + month) == year && PeriodMonth(year + "-" + month) == month
    ensures |PeriodYear(key)| <= 4 && |PeriodMonth(key)| <= 2
  {
    if |year| == 4 && |month| == 2 {
      var k := year + "-" + month;
      assert k[..4] == year && k[5..7] == month;
    }
  }

  /** `f"stations_{pollutant}_{year}_{month}.geojson"` */
  function StationsFilename(pollutant: string, year: string, month: string): string
  {
    "stations_" + pollutant + "_" + year + "_" + month + ".geojson"
  }

  /** The file a group is written to. */
  function FileNameFor(pollutant: string, periodKey: string): string
  {
    StationsFilename(PollutantToFilename(pollutant), PeriodYear(periodKey), PeriodMonth(periodKey))
  }

  /** One `(pollutant, period_key)` group of the catalogue. */
  datatype Group = Group(pollutant: string, periodKey: string, rows: seq<StationRow>)

  function TotalRows(groups: seq<Group>): (n: nat)
    ensures groups == [] ==> n == 0
  {
    if groups == [] then 0 else TotalRows(groups[..|groups| - 1]) + |groups[|groups| - 1].rows|
  }

  /** The features written for a group's rows. */
  function GroupFeatures(rows: seq<StationRow>): (features: seq<Feature>)
    ensures |features| == |rows|
    ensures forall i :: 0 <= i < |rows| ==> features[i] == RowToFeature(rows[i])
  {
    seq(|rows|, i requires 0 <= i < |rows| => RowToFeature(rows[i]))
  }

  /** The directory after writing the groups in order: a later group with the
      same file name overwrites an earlier one. */
  function Written(groups: seq<Group>): (files: map<string, seq<Feature>>)
  {
    if groups == [] then map[]
    else
      var g := groups[|groups| - 1];
      var prefix := groups[..|groups| - 1];
      Written(prefix)[FileNameFor(g.pollutant, g.periodKey) := GroupFeatures(g.rows)]
  }

  /** The files written are exactly those named by some group. */
  lemma {:induction false} WrittenKeys(groups: seq<Group>)
    ensures Written(groups).Keys == set g | g in groups :: FileNameFor(g.pollutant, g.periodKey)
  {
    if groups != [] {
      var prefix := groups[..|groups| - 1];
      WrittenKeys(prefix);
      assert forall h :: h in groups <==> h in prefix || h == groups[|groups| - 1];
    }
  }

  /** The loop of main: one file per group, `file_count` counts the groups and
      `total_stations` their rows. */
  method WriteGroups(groups: seq<Group>) returns (files: map<string, seq<Feature>>, fileCount: nat, totalStations: nat)
    ensures files == Written(groups)
    ensures fileCount == |groups|
    ensures totalStations == TotalRows(groups)
  {
    files, fileCount, totalStations := map[], 0, 0;
    var i := 0;
    while i < |groups|
      invariant 0 <= i <= |groups|
      invariant files == Written(groups[..i])
      invariant fileCount == i
      invariant totalStations == TotalRows(groups[..i])
    {
      var g := groups[i];
      var features := CreateGeojson(g.rows);
      assert groups[..i + 1][..i] == groups[..i];
      assert features == GroupFeatures(g.rows);
      files := files[FileNameFor(g.pollutant, g.periodKey) := features];
      fileCount := fileCount + 1;
      totalStations := totalStations + |g.rows|;
      i := i + 1;
    }
    assert groups[..i] == groups;
  }

  /** Group `k` is the last one written to `name`. */
  predicate LastGroupNamed(groups: seq<Group>, name: string, k: int)
  {
    && 0 <= k < |groups|
    && FileNameFor(groups[k].pollutant, groups[k].periodKey) == name
    && forall j :: k < j < |groups| ==> FileNameFor(groups[j].pollutant, groups[j].periodKey) != name
  }

  /** Every file written holds exactly the features of the last group with its name. */
  lemma {:induction false} WrittenFileIsLastGroup(groups: seq<Group>, name: string)
    requires name in Written(groups)
    ensures exists k :: LastGroupNamed(groups, name, k) && Written(groups)[name] == GroupFeatures(groups[k].rows)
  {
    var n := |groups| - 1;
    var g := groups[n];
    var prefix := groups[..n];
    WrittenStep(groups, name);
    if FileNameFor(g.pollutant, g.periodKey) == name {
      assert LastGroupNamed(groups, name, n);
    } else {
      WrittenFileIsLastGroup(prefix, name);
      var k :| LastGroupNamed(prefix, name, k) && Written(prefix)[name] == GroupFeatures(prefix[k].rows);
      LastGroupExtends(groups, name, k);
      assert groups[k] == prefix[k];
    }
  }

  /** A group that is the last one named `name` stays so when a group with
      another name is written after it. */
  lemma LastGroupExtends(groups: seq<Group>, name: string, k: int)
    requires groups != [] && LastGroupNamed(groups[..|groups| - 1], name, k)
    requires FileNameFor(groups[|groups| - 1].pollutant, groups[|groups| - 1].periodKey) != name
    ensures LastGroupNamed(groups, name, k)
  {
    var n := |groups| - 1;
    var prefix := groups[..n];
    assert groups[k] == prefix[k];
    forall j | k < j < |groups|
      ensures FileNameFor(groups[j].pollutant, groups[j].periodKey) != name
    {
      if j < n {
        assert groups[j] == prefix[j];
        assert FileNameFor(prefix[j].pollutant, prefix[j].periodKey) != name;
      }
    }
  }

  /** Writing the last group sets its own file and leaves every other one as the
      earlier groups left it. */
  lemma WrittenStep(groups: seq<Group>, name: string)
    requires groups != []
    ensures var n := |groups| - 1;
      var g := groups[n];
      && (FileNameFor(g.pollutant, g.periodKey) == name ==>
            name in Written(groups) && Written(groups)[name] == GroupFeatures(g.rows))
      && (FileNameFor(g.pollutant, g.periodKey) != name ==>
            && (name in Written(groups) <==> name in Written(groups[..n]))
            && (name in Written(groups) ==> Written(groups)[name] == Written(groups[..n])[name]))
  {
  }
}
