/** Extraction of predicted values at ground-station locations: the city
    boxes, the buffered box filter, the reprojection of a station into the
    raster's CRS, the pixel and value guards, the enrichment of each station
    with `predicted_value`, the per-pollutant processing of one month and the
    totals. Rasters, the WGS84/UTM formulas and the file system are inputs. */
module StationPredictions {
  import opened Common
  import opened GeoJson
  import TifFilename
  import CrsZone
  import StationsGeojson

  // ---------------------------------------------------------------------------
  // City boxes and the buffered filter
  // ---------------------------------------------------------------------------

  /** `CITY_BOUNDS`: `(lon_min, lat_min, lon_max, lat_max)` in WGS84. */
  const CityBounds: map<string, Box> := map[
    "Frascati" := Box(12.5, 41.7, 12.9, 41.95),
    "Bologna" := Box(11.15, 44.35, 11.50, 44.60),
    "Milano" := Box(9.00, 45.35, 9.35, 45.55)]

  const DefaultBuffer: real := 0.01

  /** `lon_min <= lon <= lon_max and lat_min <= lat <= lat_max` */
  predicate IsPointInBounds(lon: real, lat: real, b: Box)
  {
    b.minLng <= lon <= b.maxLng && b.minLat <= lat <= b.maxLat
  }

  /** The box widened by the buffer on all four sides. */
  function Expand(b: Box, buffer: real): Box
  {
    Box(b.minLng - buffer, b.minLat - buffer, b.maxLng + buffer, b.maxLat + buffer)
  }

  predicate InBox(f: Feature, b: Box) { IsPointInBounds(f.point.lng, f.point.lat, b) }

  /** The features inside the box, in their original order. */
  function Kept(features: seq<Feature>, b: Box): seq<Feature>
  {
    if features == [] then []
    else
      var last := features[|features| - 1];
      Kept(features[..|features| - 1], b) + (if InBox(last, b) then [last] else [])
  }

  /** The loop of filter_stations_by_bounds; without bounds nothing is filtered. */
  method FilterStationsByBounds(features: seq<Feature>, bounds: Option<Box>, buffer: real) returns (kept: seq<Feature>)
    ensures bounds.None? ==> kept == features
    ensures bounds.Some? ==> kept == Kept(features, Expand(bounds.value, buffer))
  {
    if bounds.None? {
      return features;
    }
    var box := Expand(bounds.value, buffer);
    kept := [];
    var i := 0;
    while i < |features|
      invariant 0 <= i <= |features|
      invariant kept == Kept(features[..i], box)
    {
      assert features[..i + 1][..i] == features[..i];
      if IsPointInBounds(features[i].point.lng, features[i].point.lat, box) {
        kept := kept + [features[i]];
      }
      i := i + 1;
    }
    assert features[..i] == features;
  }

  /** A feature is kept exactly when it is one of the input features and lies in the box. */
  lemma {:induction false} KeptMembers(features: seq<Feature>, b: Box)
    ensures forall f :: f in Kept(features, b) <==> f in features && InBox(f, b)
  {
    if features != [] {
      var prefix := features[..|features| - 1];
      KeptMembers(prefix, b);
      assert features == prefix + [features[|features| - 1]];
    }
  }

  /** Filtering commutes with concatenation, so the kept features keep their order. */
  lemma {:induction false} KeptAppend(a: seq<Feature>, c: seq<Feature>, b: Box)
    ensures Kept(a + c, b) == Kept(a, b) + Kept(c, b)
  {
    if c == [] {
      assert a + c == a;
    } else {
      var n := |c| - 1;
      assert (a + c)[..|a + c| - 1] == a + c[..n];
      KeptAppend(a, c[..n], b);
    }
  }

  /** With a non-negative buffer every station inside the city box is kept, and
      every kept station lies within the buffer of the box. */
  lemma FilterKeepsCityStations(features: seq<Feature>, b: Box, buffer: real)
    requires buffer >= 0.0
    ensures forall f :: f in features && InBox(f, b) ==> f in Kept(features, Expand(b, buffer))
    ensures forall f :: f in Kept(features, Expand(b, buffer)) ==> f in features && InBox(f, Expand(b, buffer))
  {
    KeptMembers(features, Expand(b, buffer));
  }

  // ---------------------------------------------------------------------------
  // Reading one prediction
  // ---------------------------------------------------------------------------

  /** A raster sample as a 64-bit float: NaN, an infinity, or a finite value. */
  datatype Float = NaN | PosInf | NegInf | Finite(value: real)

  /** The no-data guard: NaN and values below -1e10 or above 1e10 give `None`. */
  function ValueGuard(v: Float): (r: Option<real>)
    ensures r.Some? <==> v.Finite? && -10000000000.0 <= v.value <= 10000000000.0
    ensures r.Some? ==> r.value == v.value
  {
    match v
    case Finite(x) => if x < -10000000000.0 || x > 10000000000.0 then None else Some(x)
    case _ => None
  }

  /** The pixel guard: `0 <= row < height` and `0 <= col < width`. */
  predicate InGrid(row: int, col: int, height: nat, width: nat)
  {
    !(row < 0 || row >= height || col < 0 || col >= width)
  }

  /** What the raster library reports about a prediction raster: its CRS string
      (`None` when unset), bounds, shape, `rowcol` for its transform, and band 1. */
  datatype PredictionRaster = PredictionRaster(
    crs: Option<string>, bounds: Box, height: nat, width: nat,
    rowcol: ((real, real)) -> (int, int), band: (nat, nat) -> Float)

  /** `src.crs and src.crs.to_string() != 'EPSG:4326'` */
  predicate Projected(crs: Option<string>)
  {
    crs.Some? && |crs.value| > 0 && crs.value != "EPSG:4326"
  }

  /** The raster coordinates of a station: converted to UTM when the CRS is
      projected and names a usable UTM zone, otherwise the longitude and latitude themselves. */
  function RasterXY(crs: Option<string>, lon: real, lat: real,
                    toUtm: (real, real, nat, bool) -> (real, real)): (real, real)
  {
    if Projected(crs) then
      var zone := CrsZone.ExtractUtmZonePhrase(crs.value);
      if CrsZone.ZoneUsable(zone) then toUtm(lon, lat, zone.value.number, zone.value.northern)
      else (lon, lat)
    else (lon, lat)
  }

  /** A raster whose CRS is not `EPSG:4326` and whose first `UTM zone <n><N|S>`
      phrase names a zone n of at least 1 is sampled at the station's UTM
      coordinates in that zone and hemisphere. */
  lemma PhraseCodedRasterReprojected(crs: string, j: nat, lon: real, lat: real,
                                     toUtm: (real, real, nat, bool) -> (real, real))
    requires crs != "EPSG:4326" && CrsZone.FirstUtm(crs, j) && CrsZone.UtmZone(crs, j).number >= 1
    ensures var z := CrsZone.UtmZone(crs, j);
      RasterXY(Some(crs), lon, lat, toUtm) == toUtm(lon, lat, z.number, z.northern)
  {
    CrsZone.FirstMatchFound(CrsZone.UtmPattern, crs, j);
  }

  /** A raster without CRS, in `EPSG:4326`, or whose CRS names no UTM phrase is
      sampled at the station's longitude and latitude. */
  lemma UnprojectedRasterSampledAtLonLat(crs: Option<string>, lon: real, lat: real,
                                         toUtm: (real, real, nat, bool) -> (real, real))
    requires crs.None? || crs == Some("EPSG:4326") || CrsZone.NoUtm(crs.value)
    ensures RasterXY(crs, lon, lat, toUtm) == (lon, lat)
  {
    if crs.Some? && crs.value != "EPSG:4326" {
      assert CrsZone.ExtractUtmZonePhrase(crs.value).None?;
    }
  }

  /** A raster whose CRS is written as an `EPSG:326zz`/`EPSG:327zz` code is not
      recognised as UTM here, so stations are looked up by raw longitude and latitude. */
  lemma EpsgCodedRasterNotReprojected(z: nat, northern: bool, lon: real, lat: real,
                                      toUtm: (real, real, nat, bool) -> (real, real))
    requires 1 <= z <= 60
    ensures RasterXY(Some(CrsZone.EpsgCode(z, northern)), lon, lat, toUtm) == (lon, lat)
  {
    CrsZone.EpsgCodeRoundTrip(z, northern);
  }

  /** extract_prediction_at_point: `None` when the raster cannot be read, the
      station falls outside the grid, or the sample fails the value guard. */
  function ExtractPredictionAtPoint(raster: Option<PredictionRaster>, lon: real, lat: real,
                                    toUtm: (real, real, nat, bool) -> (real, real)): (r: Option<real>)
    ensures r.Some? <==>
      && raster.Some?
      && var (row, col) := raster.value.rowcol(RasterXY(raster.value.crs, lon, lat, toUtm));
         && InGrid(row, col, raster.value.height, raster.value.width)
         && ValueGuard(raster.value.band(row, col)).Some?
    ensures r.Some? ==> -10000000000.0 <= r.value <= 10000000000.0
    ensures r.Some? ==>
      var rc := raster.value.rowcol(RasterXY(raster.value.crs, lon, lat, toUtm));
      && InGrid(rc.0, rc.1, raster.value.height, raster.value.width)
      && raster.value.band(rc.0, rc.1) == Finite(r.value)
  {
    match raster
    case None => None
    case Some(src) =>
      var (row, col) := src.rowcol(RasterXY(src.crs, lon, lat, toUtm));
      if !InGrid(row, col, src.height, src.width) then None
      else ValueGuard(src.band(row, col))
  }

  /** One corner of the raster's bounds as get_tif_bounds_wgs84 converts it:
      from UTM with the zone of the phrase when the CRS is projected and names a
      usable zone, otherwise unchanged. */
  function CornerToWgs84(crs: Option<string>, x: real, y: real, toWgs84: (real, real, nat, bool) -> LngLat): LngLat
  {
    if Projected(crs) && CrsZone.ZoneUsable(CrsZone.ExtractUtmZonePhrase(crs.value)) then
      var z := CrsZone.ExtractUtmZonePhrase(crs.value).value;
      toWgs84(x, y, z.number, z.northern)
    else LngLat(x, y)
  }

  /** get_tif_bounds_wgs84: the WGS84 box of a raster, its lower-left and
      upper-right corners converted with the UTM zone of the phrase when there is
      one, otherwise the raster's own bounds; `None` when it cannot be read. */
  function TifBoundsWgs84(raster: Option<PredictionRaster>, toWgs84: (real, real, nat, bool) -> LngLat): (r: Option<Box>)
    ensures raster.None? <==> r.None?
    ensures raster.Some? && Projected(raster.value.crs)
            && CrsZone.ZoneUsable(CrsZone.ExtractUtmZonePhrase(raster.value.crs.value)) ==>
      var z := CrsZone.ExtractUtmZonePhrase(raster.value.crs.value).value;
      var b := raster.value.bounds;
      var sw := toWgs84(b.minLng, b.minLat, z.number, z.northern);
      var ne := toWgs84(b.maxLng, b.maxLat, z.number, z.northern);
      r == Some(Box(sw.lng, sw.lat, ne.lng, ne.lat))
    ensures raster.Some? && !(Projected(raster.value.crs) && CrsZone.ZoneUsable(CrsZone.ExtractUtmZonePhrase(raster.value.crs.value)))
      ==> r == Some(raster.value.bounds)
  {
    match raster
    case None => None
    case Some(src) =>
      var sw := CornerToWgs84(src.crs, src.bounds.minLng, src.bounds.minLat, toWgs84);
      var ne := CornerToWgs84(src.crs, src.bounds.maxLng, src.bounds.maxLat, toWgs84);
      Some(Box(sw.lng, sw.lat, ne.lng, ne.lat))
  }

  /** The box the stations are filtered by and the point each station is sampled
      at are in the same frame: when the two conversions invert each other at a
      station, its raster coordinates, converted back the way the raster's
      corners are, are the station's own longitude and latitude, for every CRS. */
  lemma StationsAndBoundsShareFrame(crs: Option<string>, lon: real, lat: real,
                                    toUtm: (real, real, nat, bool) -> (real, real),
                                    toWgs84: (real, real, nat, bool) -> LngLat)
    requires forall z: nat, n: bool :: toWgs84(toUtm(lon, lat, z, n).0, toUtm(lon, lat, z, n).1, z, n) == LngLat(lon, lat)
    ensures var xy := RasterXY(crs, lon, lat, toUtm);
      CornerToWgs84(crs, xy.0, xy.1, toWgs84) == LngLat(lon, lat)
  {
    if Projected(crs) && CrsZone.ZoneUsable(CrsZone.ExtractUtmZonePhrase(crs.value)) {
      var z := CrsZone.ExtractUtmZonePhrase(crs.value).value;
      assert RasterXY(crs, lon, lat, toUtm) == toUtm(lon, lat, z.number, z.northern);
    }
  }

  // ---------------------------------------------------------------------------
  // Enrichment
  // ---------------------------------------------------------------------------

  /** The enhanced feature: same point, same properties, plus `predicted_value`
      (`null` when there is no prediction). */
  function Enriched(f: Feature, v: Option<real>): (e: Feature)
    ensures e.point == f.point
    ensures e.properties.Keys == f.properties.Keys + {"predicted_value"}
    ensures forall k :: k in f.properties && k != "predicted_value" ==> e.properties[k] == f.properties[k]
    ensures e.properties["predicted_value"] == (if v.Some? then JNum(v.value) else JNull)
  {
    f.(properties := f.properties["predicted_value" := if v.Some? then JNum(v.value) else JNull])
  }

  function Predict(f: Feature, raster: Option<PredictionRaster>, toUtm: (real, real, nat, bool) -> (real, real)): Option<real>
  {
    ExtractPredictionAtPoint(raster, f.point.lng, f.point.lat, toUtm)
  }

  function EnrichAll(features: seq<Feature>, raster: Option<PredictionRaster>,
                     toUtm: (real, real, nat, bool) -> (real, real)): (enhanced: seq<Feature>)
    ensures |enhanced| == |features|
    ensures forall i :: 0 <= i < |features| ==> enhanced[i] == Enriched(features[i], Predict(features[i], raster, toUtm))
  {
    seq(|features|, i requires 0 <= i < |features| => Enriched(features[i], Predict(features[i], raster, toUtm)))
  }

  /** The number of features that receive a prediction. */
  function CountPredicted(features: seq<Feature>, raster: Option<PredictionRaster>,
                          toUtm: (real, real, nat, bool) -> (real, real)): (n: nat)
    ensures n <= |features|
  {
    if features == [] then 0
    else
      var last := features[|features| - 1];
      CountPredicted(features[..|features| - 1], raster, toUtm) + (if Predict(last, raster, toUtm).Some? then 1 else 0)
  }

  /** The number of features whose `predicted_value` is not `null`. */
  function CountNonNull(features: seq<Feature>): nat
  {
    if features == [] then 0
    else
      var last := features[|features| - 1];
      CountNonNull(features[..|features| - 1])
        + (if "predicted_value" in last.properties && last.properties["predicted_value"] != JNull then 1 else 0)
  }

  /** The count of predictions equals the number of enhanced features whose
      `predicted_value` is not `null`. */
  lemma {:induction false} CountPredictedIsNonNull(features: seq<Feature>, raster: Option<PredictionRaster>,
                                                    toUtm: (real, real, nat, bool) -> (real, real))
    ensures CountPredicted(features, raster, toUtm) == CountNonNull(EnrichAll(features, raster, toUtm))
  {
    if features != [] {
      var n := |features| - 1;
      CountPredictedIsNonNull(features[..n], raster, toUtm);
      assert EnrichAll(features, raster, toUtm)[..n] == EnrichAll(features[..n], raster, toUtm);
    }
  }

  /** One more station adds its enhanced feature and, when it gets a prediction, one to the count. */
  lemma EnrichPush(features: seq<Feature>, i: nat, raster: Option<PredictionRaster>,
                   toUtm: (real, real, nat, bool) -> (real, real))
    requires i < |features|
    ensures var p := Predict(features[i], raster, toUtm);
      && EnrichAll(features[..i + 1], raster, toUtm) == EnrichAll(features[..i], raster, toUtm) + [Enriched(features[i], p)]
      && CountPredicted(features[..i + 1], raster, toUtm) == CountPredicted(features[..i], raster, toUtm) + (if p.Some? then 1 else 0)
  {
    assert features[..i + 1][..i] == features[..i];
  }

  /** The enrichment loop of process_city_year_month. */
  method EnrichFeatures(features: seq<Feature>, raster: Option<PredictionRaster>,
                        toUtm: (real, real, nat, bool) -> (real, real))
    returns (enhanced: seq<Feature>, withPredictions: nat)
    ensures enhanced == EnrichAll(features, raster, toUtm)
    ensures withPredictions == CountPredicted(features, raster, toUtm)
    ensures withPredictions <= |enhanced| == |features|
  {
    enhanced, withPredictions := [], 0;
    var i := 0;
    while i < |features|
      invariant 0 <= i <= |features|
      invariant enhanced == EnrichAll(features[..i], raster, toUtm)
      invariant withPredictions == CountPredicted(features[..i], raster, toUtm)
    {
      EnrichPush(features, i, raster, toUtm);
      var f := features[i];
      var v := ExtractPredictionAtPoint(raster, f.point.lng, f.point.lat, toUtm);
      assert v == Predict(f, raster, toUtm);
      enhanced := enhanced + [Enriched(f, v)];
      if v.Some? {
        withPredictions := withPredictions + 1;
      }
      i := i + 1;
    }
    assert features[..i] == features;
  }

  // ---------------------------------------------------------------------------
  // File names
  // ---------------------------------------------------------------------------

  /** `f"{year}_{month}_{pollutant}_interpolated.tif"`: the converter's parser
      reads the key back. */
  function TifName(year: string, month: string, pollutant: string): (name: string)
    ensures TifFilename.ValidKey(TifFilename.TifKey(year, month, pollutant)) ==>
      TifFilename.Parse(name) == Some(TifFilename.TifKey(year, month, pollutant))
  {
    var k := TifFilename.TifKey(year, month, pollutant);
    assert TifFilename.ValidKey(k) ==> TifFilename.Parse(TifFilename.Format(k)) == Some(k) by {
      if TifFilename.ValidKey(k) {
        TifFilename.RoundTrip(k);
      }
    }
    TifFilename.Format(k)
  }

  /** The stations file the source looks up: the pollutant as in the raster name. */
  function LookupStationsFilename(pollutant: string, year: string, month: string): string
  {
    StationsGeojson.StationsFilename(pollutant, year, month)
  }

  /** The station writer never produces the name looked up for PM2_5: it writes
      `stations_PM2.5_…`, and no other pollutant name fits. */
  lemma PM25LookupNeverWritten(year: string, month: string, pollutant: string, periodKey: string)
    requires |year| == 4 && |month| == 2
    ensures LookupStationsFilename("PM2_5", year, month) != StationsGeojson.FileNameFor(pollutant, periodKey)
  {
    StationsGeojson.PeriodKeySlices(year, month, periodKey);
    var a := LookupStationsFilename("PM2_5", year, month);
    var q := StationsGeojson.PollutantToFilename(pollutant);
    var b := StationsGeojson.FileNameFor(pollutant, periodKey);
    assert b == "stations_" + q + "_" + StationsGeojson.PeriodYear(periodKey) + "_"
      + StationsGeojson.PeriodMonth(periodKey) + ".geojson";
    assert |a| == 30 && a[9..12] == "PM2" && a[12] == '_';
    if |q| >= 4 {
      assert b[12] == q[3] != '_';
    } else if |q| == 3 {
      assert |b| <= 28;
    } else {
      assert b[9 + |q|] == '_' != a[9 + |q|];
    }
  }

  /** The lookup that agrees with the writer: the pollutant in its file-name form. */
  function StationsFilenameFor(pollutant: string, year: string, month: string): (name: string)
    ensures |year| == 4 && |month| == 2 ==>
      name == StationsGeojson.FileNameFor(pollutant, year + "-" + month)
    ensures '_' !in pollutant ==> name == LookupStationsFilename(pollutant, year, month)
  {
    StationsGeojson.PeriodKeySlices(year, month, year + "-" + month);
    assert '_' !in pollutant ==> StationsGeojson.PollutantToFilename(pollutant) == pollutant by {
      if '_' !in pollutant {
        StationsGeojson.PollutantToFilenameCases("PM2_5", pollutant);
      }
    }
    StationsGeojson.StationsFilename(StationsGeojson.PollutantToFilename(pollutant), year, month)
  }

  /** `month_dir.name.replace('month_', '')` for a directory whose name starts with `month_`. */
  function MonthFromDirName(name: string): Option<string>
  {
    if |name| >= 6 && name[..6] == "month_" then Some(ReplaceAll(name, "month_", "")) else None
  }

  /** The directory `month_XX` gives back `XX`; names without the prefix are skipped. */
  lemma MonthDirRoundTrip(month: string, other: string)
    requires !Contains(month, "month_")
    requires !(|other| >= 6 && other[..6] == "month_")
    ensures MonthFromDirName("month_" + month) == Some(month)
    ensures MonthFromDirName(other).None?
  {
    assert ("month_" + month)[..6] == "month_";
    ReplaceAllPrefix("month_", month, "");
    ReplaceAllAbsent(month, "month_", "");
    assert ReplaceAll("month_" + month, "month_", "") == "" + month == month;
  }

  // ---------------------------------------------------------------------------
  // process_city_year_month and the totals of main
  // ---------------------------------------------------------------------------

  const Pollutants: seq<string> := ["NO2", "O3", "PM10", "PM2_5"]

  /** What one month of one city offers: the raster names present, the rasters
      that can be read, the global station files, and the two coordinate conversions. */
  datatype MonthData = MonthData(
    tifNames: set<string>,
    rasters: map<string, PredictionRaster>,
    stationFiles: map<string, seq<Feature>>,
    toUtm: (real, real, nat, bool) -> (real, real),
    toWgs84: (real, real, nat, bool) -> LngLat)

  datatype StationResult = StationResult(
    filteredStations: nat, withPredictions: nat, outputFile: string, features: seq<Feature>)

  function RasterOf(d: MonthData, tif: string): Option<PredictionRaster>
  {
    if tif in d.rasters then Some(d.rasters[tif]) else None
  }

  /** The box stations are filtered by: the city box, else the raster's bounds. */
  function FilterBox(city: string, d: MonthData, tif: string): Option<Box>
  {
    if city in CityBounds then Some(CityBounds[city]) else TifBoundsWgs84(RasterOf(d, tif), d.toWgs84)
  }

  function Filtered(all: seq<Feature>, box: Option<Box>): seq<Feature>
  {
    if box.None? then all else Kept(all, Expand(box.value, DefaultBuffer))
  }

  /** The body of the per-pollutant loop: nothing when the raster or the stations
      file is missing or no station passes the filter. */
  function PollutantResult(city: string, year: string, month: string, p: string, d: MonthData): Option<StationResult>
  {
    var tif := TifName(year, month, p);
    var stations := StationsFilenameFor(p, year, month);
    if tif !in d.tifNames || stations !in d.stationFiles then None
    else
      var filtered := Filtered(d.stationFiles[stations], FilterBox(city, d, tif));
      if |filtered| == 0 then None
      else Some(StationResult(|filtered|, CountPredicted(filtered, RasterOf(d, tif), d.toUtm),
                              city + "/" + year + "/" + stations, EnrichAll(filtered, RasterOf(d, tif), d.toUtm)))
  }

  /** Every result saved is for a pollutant whose raster and stations file exist,
      holds one enhanced feature per filtered station, at least one, and counts
      at most that many predictions; with a city box the stations are those of the file in the buffered box. */
  lemma PollutantResultFacts(city: string, year: string, month: string, p: string, d: MonthData)
    requires PollutantResult(city, year, month, p, d).Some?
    ensures var r := PollutantResult(city, year, month, p, d).value;
      var stations := StationsFilenameFor(p, year, month);
      && TifName(year, month, p) in d.tifNames && stations in d.stationFiles
      && r.filteredStations > 0 && r.withPredictions <= r.filteredStations
      && |r.features| == r.filteredStations
      && (forall i :: 0 <= i < |r.features| ==> "predicted_value" in r.features[i].properties)
      && (city in CityBounds ==>
            forall f :: f in d.stationFiles[stations] && InBox(f, CityBounds[city]) ==>
              exists i :: 0 <= i < |r.features| && r.features[i].point == f.point)
      && (city in CityBounds ==>
            r.features == EnrichAll(Kept(d.stationFiles[stations], Expand(CityBounds[city], DefaultBuffer)),
                                    RasterOf(d, TifName(year, month, p)), d.toUtm))
  {
    var r := PollutantResult(city, year, month, p, d).value;
    var tif := TifName(year, month, p);
    var stations := StationsFilenameFor(p, year, month);
    if city in CityBounds {
      var all := d.stationFiles[stations];
      var kept := Kept(all, Expand(CityBounds[city], DefaultBuffer));
      FilterKeepsCityStations(all, CityBounds[city], DefaultBuffer);
      forall f | f in all && InBox(f, CityBounds[city])
        ensures exists i :: 0 <= i < |r.features| && r.features[i].point == f.point
      {
        var i :| 0 <= i < |kept| && kept[i] == f;
        assert r.features[i].point == f.point;
      }
    }
  }

  /** One pass of the pollutant loop. */
  method ProcessPollutant(city: string, year: string, month: string, p: string, d: MonthData)
    returns (r: Option<StationResult>)
    ensures r == PollutantResult(city, year, month, p, d)
  {
    var tif := TifName(year, month, p);
    var stations := StationsFilenameFor(p, year, month);
    if tif !in d.tifNames || stations !in d.stationFiles {
      return None;
    }
    var raster := RasterOf(d, tif);
    var box := FilterBox(city, d, tif);
    var filtered := FilterStationsByBounds(d.stationFiles[stations], box, DefaultBuffer);
    assert filtered == Filtered(d.stationFiles[stations], box);
    if |filtered| == 0 {
      return None;
    }
    var enhanced, withPredictions := EnrichFeatures(filtered, raster, d.toUtm);
    r := Some(StationResult(|filtered|, withPredictions, city + "/" + year + "/" + stations, enhanced));
  }

  /** The pollutant loop: a result for every pollutant whose body produced one. */
  method ProcessCityYearMonth(city: string, year: string, month: string, d: MonthData)
    returns (results: map<string, StationResult>)
    ensures forall p :: p in results <==> p in Pollutants && PollutantResult(city, year, month, p, d).Some?
    ensures forall p :: p in results ==> results[p] == PollutantResult(city, year, month, p, d).value
  {
    results := map[];
    var i := 0;
    while i < |Pollutants|
      invariant 0 <= i <= |Pollutants|
      invariant forall p :: p in results <==> p in Pollutants[..i] && PollutantResult(city, year, month, p, d).Some?
      invariant forall p :: p in results ==> results[p] == PollutantResult(city, year, month, p, d).value
    {
      var p := Pollutants[i];
      assert Pollutants[..i + 1] == Pollutants[..i] + [p];
      var r := ProcessPollutant(city, year, month, p, d);
      if r.Some? {
        results := results[p := r.value];
      }
      i := i + 1;
    }
    assert Pollutants[..i] == Pollutants;
  }

  function SumFiltered(infos: seq<StationResult>): nat
  {
    if infos == [] then 0 else SumFiltered(infos[..|infos| - 1]) + infos[|infos| - 1].filteredStations
  }

  function SumWithPredictions(infos: seq<StationResult>): nat
  {
    if infos == [] then 0 else SumWithPredictions(infos[..|infos| - 1]) + infos[|infos| - 1].withPredictions
  }

  /** Summing predictions never exceeds summing stations when no result has more
      predictions than stations. */
  lemma {:induction false} SumsOrdered(infos: seq<StationResult>)
    requires forall i :: 0 <= i < |infos| ==> infos[i].withPredictions <= infos[i].filteredStations
    ensures SumWithPredictions(infos) <= SumFiltered(infos)
  {
    if infos != [] {
      SumsOrdered(infos[..|infos| - 1]);
    }
  }

  /** The totals of main over every saved result. */
  method Totals(infos: seq<StationResult>) returns (processed: nat, withPredictions: nat)
    ensures processed == SumFiltered(infos)
    ensures withPredictions == SumWithPredictions(infos)
    ensures (forall i :: 0 <= i < |infos| ==> infos[i].withPredictions <= infos[i].filteredStations)
      ==> withPredictions <= processed
  {
    processed, withPredictions := 0, 0;
    var i := 0;
    while i < |infos|
      invariant 0 <= i <= |infos|
      invariant processed == SumFiltered(infos[..i])
      invariant withPredictions == SumWithPredictions(infos[..i])
    {
      assert infos[..i + 1][..i] == infos[..i];
      processed := processed + infos[i].filteredStations;
      withPredictions := withPredictions + infos[i].withPredictions;
      i := i + 1;
    }
    assert infos[..i] == infos;
    if forall i :: 0 <= i < |infos| ==> infos[i].withPredictions <= infos[i].filteredStations {
      SumsOrdered(infos);
    }
  }
}
