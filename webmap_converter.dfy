/** The decision logic of the batch GeoTIFF-to-PNG converter for the web map:
    the colour scale of each pollutant, the names of the two outputs, the
    skip rule, the choice of the raster extent and of its reprojection, the
    bounds document with its closed corner ring, the lookup of the city
    boundary used for clipping, and the tally of results. Reading and masking
    the raster, the UTM-to-WGS84 series and the colour mapping are inputs. */
module WebmapConverter {
  import opened Common
  import opened GeoJson
  import TifFilename
  import CrsZone

  // ---------------------------------------------------------------------------
  // Colour scales
  // ---------------------------------------------------------------------------

  datatype Scale = Scale(vmin: int, vmax: int)

  const PollutantScales: map<string, Scale> := map[
    "NO2" := Scale(0, 50),
    "O3" := Scale(20, 80),
    "SO2" := Scale(0, 10),
    "PM2_5" := Scale(0, 35),
    "PM10" := Scale(0, 50)]

  const DefaultScale: Scale := Scale(0, 50)

  /** `POLLUTANT_SCALES.get(pollutant, {'vmin': 0, 'vmax': 50})`: listed
      pollutants get their own range, every other one 0..50; no range is empty,
      so the normalisation `(data - vmin) / (vmax - vmin)` never divides by zero. */
  function ScaleFor(pollutant: string): (s: Scale)
    ensures s.vmin < s.vmax
    ensures pollutant !in {"NO2", "O3", "SO2", "PM2_5", "PM10"} ==> s == Scale(0, 50)
    ensures pollutant == "O3" ==> s == Scale(20, 80)
    ensures pollutant == "PM2_5" ==> s == Scale(0, 35)
    ensures pollutant == "NO2" ==> s == Scale(0, 50)
    ensures pollutant == "SO2" ==> s == Scale(0, 10)
    ensures pollutant == "PM10" ==> s == Scale(0, 50)
  {
    if pollutant in PollutantScales then PollutantScales[pollutant] else DefaultScale
  }

  // ---------------------------------------------------------------------------
  // Output names
  // ---------------------------------------------------------------------------

  const PngSuffix: string := "_inferno.png"
  const BoundsSuffix: string := "_bounds.geojson"

  /** `f"{pollutant}_month{month}_inferno.png"` */
  function PngName(pollutant: string, month: string): string
  {
    pollutant + "_month" + month + PngSuffix
  }

  /** `f"{pollutant}_month{month}_bounds.geojson"` */
  function BoundsName(pollutant: string, month: string): string
  {
    pollutant + "_month" + month + BoundsSuffix
  }

  /** For two-character months both names determine the pollutant and the month,
      so distinct rasters of one city and year never share an output, and the
      image and its bounds file never share a name. */
  lemma OutputNamesInjective(p1: string, m1: string, p2: string, m2: string)
    requires |m1| == 2 && |m2| == 2
    ensures PngName(p1, m1) == PngName(p2, m2) <==> p1 == p2 && m1 == m2
    ensures BoundsName(p1, m1) == BoundsName(p2, m2) <==> p1 == p2 && m1 == m2
    ensures PngName(p1, m1) != BoundsName(p2, m2)
  {
    var a, b := PngName(p1, m1), PngName(p2, m2);
    if a == b {
      assert |p1| == |p2|;
      assert p1 == a[..|p1|] && p2 == b[..|p2|];
      assert m1 == a[|p1| + 6..|p1| + 8] && m2 == b[|p2| + 6..|p2| + 8];
    }
    var c, d := BoundsName(p1, m1), BoundsName(p2, m2);
    if c == d {
      assert |p1| == |p2|;
      assert p1 == c[..|p1|] && p2 == d[..|p2|];
      assert m1 == c[|p1| + 6..|p1| + 8] && m2 == d[|p2| + 6..|p2| + 8];
    }
    assert a[|a| - 1] == 'g' && c[|c| - 1] == 'n';
  }

  // ---------------------------------------------------------------------------
  // City boundary lookup (load_city_boundary)
  // ---------------------------------------------------------------------------

  /** Frascati is clipped by the Italian municipalities, every other city by US counties. */
  function BoundaryFileName(city: string): string
  {
    if city == "Frascati" then "ita_comuni.geojson" else "usa_counties.geojson"
  }

  /** Python truthiness of a JSON scalar. */
  predicate Truthy(v: Json)
  {
    match v
    case JNull => false
    case JNum(n) => n != 0.0
    case JStr(s) => |s| > 0
  }

  /** `props.get('name') or props.get('NAME', '')` */
  function FeatureName(props: map<string, Json>): Json
  {
    if "name" in props && Truthy(props["name"]) then props["name"]
    else if "NAME" in props then props["NAME"]
    else JStr("")
  }

  /** `str.lower()`, on ASCII letters. */
  function Lower(s: string): string
  {
    seq(|s|, i requires 0 <= i < |s| => AsciiLower(s[i]))
  }

  /** `name.lower() == city_name.lower()` holds exactly when the two names are
      equal ignoring case. */
  lemma LowerMatchesIgnoreCase(a: string, b: string)
    ensures Lower(a) == Lower(b) <==> EqualsIgnoreCase(a, b)
  {
    if EqualsIgnoreCase(a, b) {
      assert forall i :: 0 <= i < |a| ==> Lower(a)[i] == Lower(b)[i];
    }
    if Lower(a) == Lower(b) {
      assert |a| == |Lower(a)| == |Lower(b)| == |b|;
      forall i | 0 <= i < |a| ensures AsciiLower(a[i]) == AsciiLower(b[i]) {
        assert Lower(a)[i] == Lower(b)[i];
      }
    }
  }

  /** Whether a feature names the city; a name that is not a string makes
      `name.lower()` raise, here `Err`. */
  function NamesCity(props: map<string, Json>, city: string): Result<bool, string>
  {
    match FeatureName(props)
    case JStr(n) => Ok(Lower(n) == Lower(city))
    case _ => Err("name is not a string")
  }

  /** The `geometry` member of a boundary feature: absent (`feature['geometry']`
      raises), or present, with whether shapely's `shape` builds a shape from it
      as it arrives there, after the UTM transformation where that applies and
      succeeds (`null`, a missing `type` or an unknown type make it raise). */
  datatype Geometry = Absent | Present(shapeable: bool)

  /** A feature of a boundary file: its property object and its geometry. */
  datatype BoundaryFeature = BoundaryFeature(properties: map<string, Json>, geometry: Geometry)

  /** The first feature naming the city, scanning in file order; an error as
      soon as a scanned feature has a name that is not a string. */
  function CityFeatureIndex(features: seq<BoundaryFeature>, city: string, from: nat): (r: Result<Option<nat>, string>)
    requires from <= |features|
    decreases |features| - from
    ensures r.Ok? && r.value.Some? ==> from <= r.value.value < |features|
  {
    if from == |features| then Ok(None)
    else match NamesCity(features[from].properties, city)
      case Err(e) => Err(e)
      case Ok(true) => Ok(Some(from))
      case Ok(false) => CityFeatureIndex(features, city, from + 1)
  }

  /** The loop of load_city_boundary with its `break`. */
  method FindCityFeature(features: seq<BoundaryFeature>, city: string) returns (r: Result<Option<nat>, string>)
    ensures r == CityFeatureIndex(features, city, 0)
    ensures r.Ok? && r.value.Some? ==>
      r.value.value < |features| && NamesCity(features[r.value.value].properties, city) == Ok(true)
      && forall j :: 0 <= j < r.value.value ==> NamesCity(features[j].properties, city) == Ok(false)
    ensures r == Ok(None) ==> forall j :: 0 <= j < |features| ==> NamesCity(features[j].properties, city) == Ok(false)
  {
    var i := 0;
    r := Ok(None);
    while i < |features|
      invariant 0 <= i <= |features|
      invariant CityFeatureIndex(features, city, 0) == CityFeatureIndex(features, city, i)
      invariant forall j :: 0 <= j < i ==> NamesCity(features[j].properties, city) == Ok(false)
    {
      var named := NamesCity(features[i].properties, city);
      if named.Err? {
        r := Err(named.error);
        return;
      }
      if named.value {
        r := Ok(Some(i));
        return;
      }
      i := i + 1;
    }
  }

  // ---------------------------------------------------------------------------
  // convert_single_tif
  // ---------------------------------------------------------------------------

  /** What the raster library reports: the CRS string, the full bounds, and the
      bounds of the masked raster when masking succeeds (`None`: `mask` raised). */
  datatype RasterSource = RasterSource(crs: string, fullBounds: Box, clippedBounds: Option<Box>)

  /** Everything convert_single_tif learns from outside: the CLIP_TO_BOUNDARY
      setting, the names already in the output directory, the boundary files of
      the city (file name to features, `None` for a file that is not valid JSON), the raster (`None`: the library raised), the UTM-to-WGS84
      conversion, and the text of an exception. */
  datatype Environment = Environment(
    clipToBoundary: bool,
    existing: set<string>,
    boundaryFiles: map<string, Option<seq<BoundaryFeature>>>,
    raster: Option<RasterSource>,
    utmToWgs84: (real, real, nat, bool) -> LngLat,
    failureText: string)

  datatype ConvertOutcome =
    | Converted(pngName: string, boundsName: string, bounds: BoundsFile, message: string)
    | Skipped(message: string)
    | Failed(message: string)

  /** The `(success, message)` pair the source returns. */
  function Report(o: ConvertOutcome): (bool, string)
  {
    match o
    case Converted(_, _, _, m) => (true, m)
    case Skipped(m) => (true, m)
    case Failed(m) => (false, m)
  }

  predicate CityGiven(city: Option<string>) { city.Some? && |city.value| > 0 }

  /** `CLIP_TO_BOUNDARY and city_name` */
  predicate Clipping(env: Environment, city: Option<string>) { env.clipToBoundary && CityGiven(city) }

  /** The boundary feature used for clipping: `Ok(None)` when there is none
      (clipping off, no file, or no feature naming the city); `Err` when
      `json.load` or the name comparison raises. */
  function CityBoundary(env: Environment, city: Option<string>): Result<Option<BoundaryFeature>, string>
  {
    if !Clipping(env, city) then Ok(None)
    else
      var file := BoundaryFileName(city.value);
      if file !in env.boundaryFiles then Ok(None)
      else match env.boundaryFiles[file]
        case None => Err("boundary file is not valid JSON")
        case Some(features) =>
          match CityFeatureIndex(features, city.value, 0)
          case Err(e) => Err(e)
          case Ok(None) => Ok(None)
          case Ok(Some(i)) => Ok(Some(features[i]))
  }

  /** The clipping loop turns the boundary's geometry into a shape: it raises
      when the feature has no `geometry` or `shape` refuses it. */
  predicate ShapeBuilt(boundary: Option<BoundaryFeature>)
  {
    boundary.None? || boundary.value.geometry == Present(true)
  }

  /** The extent in the raster's own CRS: the masked bounds when a boundary was
      found and masking succeeded, otherwise the full bounds. */
  function SourceExtent(raster: RasterSource, clipped: bool): Box
  {
    if clipped && raster.clippedBounds.Some? then raster.clippedBounds.value else raster.fullBounds
  }

  /** A box in UTM coordinates of a zone with its lower-left and upper-right
      corners converted to WGS84. */
  function UtmBoxToWgs84(b: Box, z: CrsZone.Zone, utmToWgs84: (real, real, nat, bool) -> LngLat): Box
  {
    var sw := utmToWgs84(b.minLng, b.minLat, z.number, z.northern);
    var ne := utmToWgs84(b.maxLng, b.maxLat, z.number, z.northern);
    Box(sw.lng, sw.lat, ne.lng, ne.lat)
  }

  /** With a usable UTM zone the corners are converted to WGS84; otherwise the
      bounds are taken to be WGS84 already. */
  function LngLatExtent(b: Box, crs: string, utmToWgs84: (real, real, nat, bool) -> LngLat): Box
  {
    var zone := CrsZone.ExtractUtmZone(crs);
    if CrsZone.ZoneUsable(zone) then UtmBoxToWgs84(b, zone.value, utmToWgs84) else b
  }

  /** A CRS string carrying an `EPSG:326zz`/`EPSG:327zz` code, wherever any
      `UTM zone` phrase stands: the extent goes through the code's zone and
      hemisphere, except for zone 00, which counts as no zone. */
  lemma EpsgCrsExtent(b: Box, crs: string, i: nat, utmToWgs84: (real, real, nat, bool) -> LngLat)
    requires CrsZone.FirstEpsg(crs, i)
    ensures var z := CrsZone.EpsgZone(crs, i);
      LngLatExtent(b, crs, utmToWgs84) == if z.number == 0 then b else UtmBoxToWgs84(b, z, utmToWgs84)
  {
    CrsZone.FirstMatchFound(CrsZone.EpsgPattern, crs, i);
  }

  /** A CRS string without an EPSG code whose first phrase is `UTM zone <n><N|S>`:
      the extent goes through zone n and the letter's hemisphere, except for zone 0. */
  lemma PhraseCrsExtent(b: Box, crs: string, j: nat, utmToWgs84: (real, real, nat, bool) -> LngLat)
    requires CrsZone.NoEpsg(crs) && CrsZone.FirstUtm(crs, j)
    ensures var z := CrsZone.UtmZone(crs, j);
      LngLatExtent(b, crs, utmToWgs84) == if z.number == 0 then b else UtmBoxToWgs84(b, z, utmToWgs84)
  {
    CrsZone.FirstMatchFound(CrsZone.UtmPattern, crs, j);
  }

  /** A CRS string with neither form leaves the raster's box as it is. */
  lemma UnprojectedCrsExtent(b: Box, crs: string, utmToWgs84: (real, real, nat, bool) -> LngLat)
    requires CrsZone.NoEpsg(crs) && CrsZone.NoUtm(crs)
    ensures LngLatExtent(b, crs, utmToWgs84) == b
  {
    assert CrsZone.ExtractUtmZone(crs).None?;
  }

  /** `EPSG:4326` is such a string. */
  lemma Wgs84CrsExtent(b: Box, utmToWgs84: (real, real, nat, bool) -> LngLat)
    ensures LngLatExtent(b, "EPSG:4326", utmToWgs84) == b
  {
    CrsZone.NoUtmWithoutU("EPSG:4326");
    UnprojectedCrsExtent(b, "EPSG:4326", utmToWgs84);
  }

  /** The bounds GeoJSON: one Polygon feature whose only ring is the display
      corners closed by the first corner, and the property object. */
  function BoundsDocument(extent: Box, k: TifFilename.TifKey, clippedTo: string): BoundsFile
  {
    var scale := ScaleFor(k.pollutant);
    BoundsFile([BoundsFeature(
      [RingJson(CloseRing(Corners(extent)))],
      map[
        "pollutant" := JStr(k.pollutant),
        "month" := JStr(k.month),
        "image_file" := JStr(PngName(k.pollutant, k.month)),
        "vmin" := JNum(scale.vmin as real),
        "vmax" := JNum(scale.vmax as real),
        "colormap" := JStr("inferno"),
        "clipped_to" := JStr(clippedTo)])])
  }

  /** `skip_existing and png_path.exists() and bounds_path.exists()` */
  predicate SkipsExisting(k: TifFilename.TifKey, skipExisting: bool, env: Environment)
  {
    skipExisting && PngName(k.pollutant, k.month) in env.existing && BoundsName(k.pollutant, k.month) in env.existing
  }

  /** The WGS84 extent a conversion writes: the masked bounds when a city
      feature was found and masking succeeded, otherwise the full bounds, through
      the CRS's UTM zone. */
  function ConvertedExtent(env: Environment, city: Option<string>): Box
    requires env.raster.Some? && CityBoundary(env, city).Ok?
  {
    var raster := env.raster.value;
    LngLatExtent(SourceExtent(raster, CityBoundary(env, city).value.Some?), raster.crs, env.utmToWgs84)
  }

  /** The `clipped_to` property: the city when clipping is on, `full` otherwise. */
  function ClippedTo(env: Environment, city: Option<string>): string
  {
    if Clipping(env, city) then city.value else "full"
  }

  /** The suffix of a conversion message. */
  function ClipStatus(env: Environment, city: Option<string>): string
  {
    if Clipping(env, city) then " (clipped to " + city.value + ")" else ""
  }

  function ConvertSingleTif(tifPath: string, name: string, skipExisting: bool, city: Option<string>,
                            env: Environment): (r: ConvertOutcome)
    ensures TifFilename.Parse(name).None? ==> r == Failed("Could not parse filename: " + name)
    ensures r.Skipped? <==>
      TifFilename.Parse(name).Some? && SkipsExisting(TifFilename.Parse(name).value, skipExisting, env)
    ensures r.Converted? <==>
      && TifFilename.Parse(name).Some? && !SkipsExisting(TifFilename.Parse(name).value, skipExisting, env)
      && CityBoundary(env, city).Ok? && env.raster.Some? && ShapeBuilt(CityBoundary(env, city).value)
    ensures r.Converted? ==>
      var k := TifFilename.Parse(name).value;
      && r.pngName == PngName(k.pollutant, k.month) && r.boundsName == BoundsName(k.pollutant, k.month)
      && r.message == "Converted: " + PngName(k.pollutant, k.month) + ClipStatus(env, city)
      && r.bounds == BoundsDocument(ConvertedExtent(env, city), k, ClippedTo(env, city))
    ensures r.Failed? && TifFilename.Parse(name).Some? ==>
      r.message == "Error converting " + tifPath + ": " + env.failureText
  {
    match TifFilename.Parse(name)
    case None => Failed("Could not parse filename: " + name)
    case Some(k) =>
      var png := PngName(k.pollutant, k.month);
      var bounds := BoundsName(k.pollutant, k.month);
      if skipExisting && png in env.existing && bounds in env.existing then
        Skipped("Skipped (exists): " + png)
      else
        match CityBoundary(env, city)
        case Err(_) => Failed("Error converting " + tifPath + ": " + env.failureText)
        case Ok(boundary) =>
          match env.raster
          case None => Failed("Error converting " + tifPath + ": " + env.failureText)
          case Some(raster) =>
            if !ShapeBuilt(boundary) then Failed("Error converting " + tifPath + ": " + env.failureText)
            else
              var doc := BoundsDocument(ConvertedExtent(env, city), k, ClippedTo(env, city));
              Converted(png, bounds, doc, "Converted: " + png + ClipStatus(env, city))
  }

  /** A converted file's bounds document holds exactly one ring: five points, the
      display corners TL, TR, BR, BL of the WGS84 extent and TL again. The extent
      comes from the masked bounds exactly when a city feature was found and
      masking succeeded, and from the full bounds otherwise. The properties are
      the file's pollutant and month, the PNG's name, the pollutant's scale, the
      inferno colour map and the clipping city or `full`. */
  lemma ConvertedBoundsRing(tifPath: string, name: string, skipExisting: bool, city: Option<string>, env: Environment)
    requires ConvertSingleTif(tifPath, name, skipExisting, city, env).Converted?
    ensures var r := ConvertSingleTif(tifPath, name, skipExisting, city, env);
      var k := TifFilename.Parse(name).value;
      var raster := env.raster.value;
      var masked := CityBoundary(env, city).value.Some? && raster.clippedBounds.Some?;
      var extent := LngLatExtent(if masked then raster.clippedBounds.value else raster.fullBounds,
                                 raster.crs, env.utmToWgs84);
      && |r.bounds.features| == 1 && |r.bounds.features[0].rings| == 1
      && r.bounds.features[0].rings[0] == RingJson(CloseRing(Corners(extent)))
      && |r.bounds.features[0].rings[0]| == 5
      && r.bounds.features[0].rings[0][0] == r.bounds.features[0].rings[0][4]
      && r.bounds.features[0].properties["pollutant"] == JStr(k.pollutant)
      && r.bounds.features[0].properties["month"] == JStr(k.month)
      && r.bounds.features[0].properties["image_file"] == JStr(r.pngName)
      && r.bounds.features[0].properties["vmin"] == JNum(ScaleFor(k.pollutant).vmin as real)
      && r.bounds.features[0].properties["vmax"] == JNum(ScaleFor(k.pollutant).vmax as real)
      && r.bounds.features[0].properties["colormap"] == JStr("inferno")
      && r.bounds.features[0].properties["clipped_to"] == JStr(if Clipping(env, city) then city.value else "full")
  {
    var r := ConvertSingleTif(tifPath, name, skipExisting, city, env);
    var extent := ConvertedExtent(env, city);
    assert r.bounds == BoundsDocument(extent, TifFilename.Parse(name).value, ClippedTo(env, city));
    BoundsDocumentShape(extent, TifFilename.Parse(name).value, ClippedTo(env, city));
  }

  /** The shape of every bounds document: one closed five-point display ring and
      the seven properties. */
  lemma BoundsDocumentShape(extent: Box, k: TifFilename.TifKey, clippedTo: string)
    ensures var d := BoundsDocument(extent, k, clippedTo);
      && |d.features| == 1 && |d.features[0].rings| == 1
      && d.features[0].rings[0] == RingJson(CloseRing(Corners(extent)))
      && |d.features[0].rings[0]| == 5
      && d.features[0].rings[0][0] == d.features[0].rings[0][4]
      && d.features[0].properties == map[
           "pollutant" := JStr(k.pollutant), "month" := JStr(k.month),
           "image_file" := JStr(PngName(k.pollutant, k.month)),
           "vmin" := JNum(ScaleFor(k.pollutant).vmin as real), "vmax" := JNum(ScaleFor(k.pollutant).vmax as real),
           "colormap" := JStr("inferno"), "clipped_to" := JStr(clippedTo)]
  {
    DisplayRingShape(extent);
  }

  // ---------------------------------------------------------------------------
  // The tally in main
  // ---------------------------------------------------------------------------

  datatype Tallied = CountedConverted | CountedSkipped | CountedError

  /** How main classifies a result: by `success` and by whether the message contains 'Skipped'. */
  function ClassifyReport(report: (bool, string)): Tallied
  {
    if report.0 then (if Contains(report.1, "Skipped") then CountedSkipped else CountedConverted)
    else CountedError
  }

  /** The number of entries of a given class. */
  function Count(kinds: seq<Tallied>, t: Tallied): (n: nat)
    ensures n <= |kinds|
  {
    if kinds == [] then 0
    else Count(kinds[..|kinds| - 1], t) + (if kinds[|kinds| - 1] == t then 1 else 0)
  }

  /** Every entry falls in exactly one class. */
  lemma {:induction false} CountsPartition(kinds: seq<Tallied>)
    ensures Count(kinds, CountedConverted) + Count(kinds, CountedSkipped) + Count(kinds, CountedError) == |kinds|
  {
    if kinds != [] {
      CountsPartition(kinds[..|kinds| - 1]);
    }
  }

  /** The loop of main over the processed files: each increments exactly one of
      converted, skipped and errors. */
  method Tally(kinds: seq<Tallied>) returns (converted: nat, skipped: nat, errors: nat)
    ensures converted == Count(kinds, CountedConverted)
    ensures skipped == Count(kinds, CountedSkipped)
    ensures errors == Count(kinds, CountedError)
    ensures converted + skipped + errors == |kinds|
  {
    converted, skipped, errors := 0, 0, 0;
    var i := 0;
    while i < |kinds|
      invariant 0 <= i <= |kinds|
      invariant converted == Count(kinds[..i], CountedConverted)
      invariant skipped == Count(kinds[..i], CountedSkipped)
      invariant errors == Count(kinds[..i], CountedError)
    {
      assert kinds[..i + 1][..i] == kinds[..i];
      match kinds[i] {
        case CountedSkipped => skipped := skipped + 1;
        case CountedConverted => converted := converted + 1;
        case CountedError => errors := errors + 1;
      }
      i := i + 1;
    }
    assert kinds[..i] == kinds;
    CountsPartition(kinds);
  }

  function ReportKinds(outcomes: seq<ConvertOutcome>): (kinds: seq<Tallied>)
    ensures |kinds| == |outcomes|
    ensures forall i :: 0 <= i < |outcomes| ==> kinds[i] == ClassifyReport(Report(outcomes[i]))
  {
    seq(|outcomes|, i requires 0 <= i < |outcomes| => ClassifyReport(Report(outcomes[i])))
  }

  /** As written, a converted raster whose message contains 'Skipped' is counted
      as skipped: any pollutant group whose name contains `Skipped` is enough,
      for any city whose boundary lookup and shape building do not raise. */
  lemma SkippedPollutantMiscounted(tifPath: string, name: string, k: TifFilename.TifKey,
                                   city: Option<string>, env: Environment)
    requires TifFilename.ValidKey(k) && name == TifFilename.Format(k)
    requires Contains(k.pollutant, "Skipped")
    requires env.raster.Some? && PngName(k.pollutant, k.month) !in env.existing
    requires CityBoundary(env, city).Ok? && ShapeBuilt(CityBoundary(env, city).value)
    ensures var o := ConvertSingleTif(tifPath, name, true, city, env);
      o.Converted? && ClassifyReport(Report(o)) == CountedSkipped
  {
    TifFilename.RoundTrip(k);
    MessageMentionsPollutant(k.pollutant, k.month, ClipStatus(env, city));
  }

  /** The conversion message contains every substring of the pollutant's name. */
  lemma MessageMentionsPollutant(pollutant: string, month: string, status: string)
    requires Contains(pollutant, "Skipped")
    ensures Contains("Converted: " + PngName(pollutant, month) + status, "Skipped")
  {
    var m := "Converted: " + PngName(pollutant, month) + status;
    var i :| 0 <= i <= |pollutant| - 7 && OccursAt(pollutant, "Skipped", i);
    assert m == "Converted: " + pollutant + ("_month" + month + PngSuffix + status);
    assert m[11 + i..11 + i + 7] == pollutant[i..i + 7];
    assert OccursAt(m, "Skipped", 11 + i);
  }

  /** Such a key exists: the pollutant group `Skipped` of January 2024. */
  lemma SkippedPollutantExists(k: TifFilename.TifKey)
    requires k == TifFilename.TifKey("2024", "01", "Skipped")
    ensures TifFilename.ValidKey(k) && Contains(k.pollutant, "Skipped")
  {
    assert OccursAt(k.pollutant, "Skipped", 0);
  }

  /** The intended classification: by the kind of outcome. It agrees with the
      message-based one exactly when a message mentions 'Skipped' only for skips. */
  function ClassifyOutcome(o: ConvertOutcome): (t: Tallied)
    ensures (o.Failed? || (Contains(o.message, "Skipped") <==> o.Skipped?)) ==> t == ClassifyReport(Report(o))
    ensures o.Converted? && Contains(o.message, "Skipped") ==> t != ClassifyReport(Report(o))
  {
    match o
    case Converted(_, _, _, _) => CountedConverted
    case Skipped(_) => CountedSkipped
    case Failed(_) => CountedError
  }

  /** Every skip message of convert_single_tif mentions 'Skipped', so the two
      classifications differ only on conversions whose message mentions it. */
  lemma SkipMessagesMentionSkipped(tifPath: string, name: string, skipExisting: bool, city: Option<string>, env: Environment)
    ensures var o := ConvertSingleTif(tifPath, name, skipExisting, city, env);
      !(o.Converted? && Contains(o.message, "Skipped")) ==> ClassifyOutcome(o) == ClassifyReport(Report(o))
  {
    var o := ConvertSingleTif(tifPath, name, skipExisting, city, env);
    if o.Skipped? {
      var k := TifFilename.Parse(name).value;
      assert o.message == "Skipped (exists): " + PngName(k.pollutant, k.month);
      assert o.message[..7] == "Skipped";
      assert OccursAt(o.message, "Skipped", 0);
    }
  }

  function OutcomeKinds(outcomes: seq<ConvertOutcome>): (kinds: seq<Tallied>)
    ensures |kinds| == |outcomes|
    ensures forall i :: 0 <= i < |outcomes| ==> kinds[i] == ClassifyOutcome(outcomes[i])
  {
    seq(|outcomes|, i requires 0 <= i < |outcomes| => ClassifyOutcome(outcomes[i]))
  }

  /** With the intended classification the converted count is exactly the number
      of rasters converted. */
  lemma {:induction false} ConvertedCountIsConversions(outcomes: seq<ConvertOutcome>)
    ensures Count(OutcomeKinds(outcomes), CountedConverted) == |ConvertedIndices(outcomes)|
  {
    if outcomes != [] {
      var n := |outcomes| - 1;
      var prefix := outcomes[..n];
      ConvertedCountIsConversions(prefix);
      assert OutcomeKinds(outcomes)[..n] == OutcomeKinds(prefix);
      ConvertedIndicesStep(outcomes);
    }
  }

  /** The positions of the converted rasters. */
  function ConvertedIndices(outcomes: seq<ConvertOutcome>): set<int>
  {
    set i | 0 <= i < |outcomes| && outcomes[i].Converted?
  }

  /** One more outcome adds its position exactly when it is a conversion. */
  lemma ConvertedIndicesStep(outcomes: seq<ConvertOutcome>)
    requires outcomes != []
    ensures var n := |outcomes| - 1;
      |ConvertedIndices(outcomes)| ==
        |ConvertedIndices(outcomes[..n])| + (if outcomes[n].Converted? then 1 else 0)
  {
    var n := |outcomes| - 1;
    var s := ConvertedIndices(outcomes);
    var sp := ConvertedIndices(outcomes[..n]);
    if outcomes[n].Converted? {
      assert s == sp + {n};
    } else {
      assert s == sp;
    }
  }
}
