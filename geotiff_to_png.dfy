/** The stand-alone GeoTIFF-to-PNG script: how many bands are read, which
    three become red, green and blue, the pixel corners of the raster and the
    chain of fallbacks that turns them into target-CRS corners, the closed
    bounds ring, the default output paths and the command line. Reading the
    bands, normalising them and every coordinate transformation are inputs. */
module GeotiffToPng {
  import opened Common
  import opened GeoJson

  // ---------------------------------------------------------------------------
  // Bands
  // ---------------------------------------------------------------------------

  /** `max(4, min(num_bands, 12))` */
  function ReadCount(numBands: nat): (k: nat)
    ensures 4 <= k <= 12
    ensures numBands >= 4 ==> k == (if numBands < 12 then numBands else 12)
    ensures numBands < 4 ==> k == 4
  {
    var capped := if numBands < 12 then numBands else 12;
    if capped < 4 then 4 else capped
  }

  /** Reading bands `1..ReadCount(n)`: rasterio raises for an index beyond the
      raster's band count, so a raster with fewer than four bands cannot be read. */
  function ReadBandsAsWritten(numBands: nat): (r: Result<nat, string>)
    ensures r.Ok? <==> numBands >= 4
    ensures r.Ok? ==> r.value == ReadCount(numBands) && 4 <= r.value <= numBands
  {
    var k := ReadCount(numBands);
    if k <= numBands then Ok(k) else Err("band index out of range")
  }

  /** The intended reading: every band up to twelve. */
  function ReadBands(numBands: nat): (r: Result<nat, string>)
    ensures r.Ok? && r.value <= numBands && r.value <= 12
    ensures r.value == numBands || r.value == 12
    ensures numBands >= 4 ==> r == ReadBandsAsWritten(numBands)
  {
    Ok(if numBands < 12 then numBands else 12)
  }

  /** Python list indexing `bands[i]`: negative indices count from the end. */
  function PyIndex(i: int, len: nat): (r: Option<nat>)
    ensures r.Some? <==> -(len as int) <= i < len
    ensures r.Some? ==> r.value < len && (r.value == i || r.value == len + i)
  {
    if 0 <= i < len then Some(i) else if -(len as int) <= i < 0 then Some(len + i) else None
  }

  /** Three band positions (0-based) for red, green and blue. */
  datatype Rgb = Rgb(r: nat, g: nat, b: nat)

  function PickIndices(indices: seq<int>, count: nat): (r: Result<Rgb, string>)
    requires |indices| == 3
  {
    match (PyIndex(indices[0], count), PyIndex(indices[1], count), PyIndex(indices[2], count))
    case (Some(r), Some(g), Some(b)) => Ok(Rgb(r, g, b))
    case _ => Err("list index out of range")
  }

  /** The band selection chain: explicit indices when three are given, else
      B4, B3, B2 of a Sentinel-2 stack, else the first three bands, else the
      first band as grey. */
  function SelectBands(count: nat, indices: Option<seq<int>>): (r: Result<Rgb, string>)
    ensures r.Ok? ==> r.value.r < count && r.value.g < count && r.value.b < count
    ensures !(indices.Some? && |indices.value| == 3) ==> (r.Ok? <==> count >= 1)
    ensures indices.Some? && |indices.value| == 3 ==>
      (r.Ok? <==> forall k :: 0 <= k < 3 ==> -(count as int) <= indices.value[k] < count)
    ensures indices.Some? && |indices.value| == 3 && r.Ok? ==>
      r.value == Rgb(PyIndex(indices.value[0], count).value, PyIndex(indices.value[1], count).value,
                     PyIndex(indices.value[2], count).value)
    ensures !(indices.Some? && |indices.value| == 3) && count >= 4 ==> r == Ok(Rgb(3, 2, 1))
    ensures !(indices.Some? && |indices.value| == 3) && count == 3 ==> r == Ok(Rgb(0, 1, 2))
    ensures !(indices.Some? && |indices.value| == 3) && 1 <= count <= 2 ==> r == Ok(Rgb(0, 0, 0))
  {
    if indices.Some? && |indices.value| > 0 && |indices.value| == 3 then PickIndices(indices.value, count)
    else if count >= 4 then Ok(Rgb(3, 2, 1))
    else if count >= 3 then Ok(Rgb(0, 1, 2))
    else if count == 1 then Ok(Rgb(0, 0, 0))
    else if count == 0 then Err("list index out of range")
    else Ok(Rgb(0, 0, 0))
  }

  /** As written, whenever the bands were read the Sentinel-2 branch is taken:
      the three-band and single-band branches can never run. */
  lemma DefaultBandsAlwaysSentinel(numBands: nat)
    requires ReadBandsAsWritten(numBands).Ok?
    ensures SelectBands(ReadBandsAsWritten(numBands).value, None) == Ok(Rgb(3, 2, 1))
  {
  }

  /** A three-band raster fails as written, but with the intended reading it is
      taken as RGB, and a single-band or two-band raster as grey. */
  lemma FewBandsIntended(numBands: nat)
    requires 1 <= numBands <= 3
    ensures ReadBandsAsWritten(numBands).Err?
    ensures numBands == 3 ==> SelectBands(ReadBands(numBands).value, None) == Ok(Rgb(0, 1, 2))
    ensures numBands <= 2 ==> SelectBands(ReadBands(numBands).value, None) == Ok(Rgb(0, 0, 0))
    ensures SelectBands(ReadBands(numBands).value, None).Ok?
  {
  }

  // ---------------------------------------------------------------------------
  // Corners
  // ---------------------------------------------------------------------------

  /** An affine geotransform: `x = a*col + b*row + c`, `y = d*col + e*row + f`. */
  datatype Affine = Affine(a: real, b: real, c: real, d: real, e: real, f: real)

  function Apply(t: Affine, px: real, py: real): LngLat
  {
    LngLat(t.a * px + t.b * py + t.c, t.d * px + t.e * py + t.f)
  }

  /** The pixel corners `(0,0), (w,0), (w,h), (0,h)` through the transform. */
  function PixelCorners(t: Affine, width: nat, height: nat): (c: seq<LngLat>)
    ensures |c| == 4
    ensures c[0] == Apply(t, 0.0, 0.0) && c[1] == Apply(t, width as real, 0.0)
    ensures c[2] == Apply(t, width as real, height as real) && c[3] == Apply(t, 0.0, height as real)
  {
    [Apply(t, 0.0, 0.0), Apply(t, width as real, 0.0),
     Apply(t, width as real, height as real), Apply(t, 0.0, height as real)]
  }

  /** The box a north-up transform covers: west and north at the origin, east
      `a * width` to the right, south `e * height` below. */
  function NorthUpBox(t: Affine, width: nat, height: nat): Box
  {
    Box(t.c, t.f + t.e * (height as real), t.c + t.a * (width as real), t.f)
  }

  /** For a north-up transform (no rotation, `a > 0`, `e < 0`) the pixel corners
      are the display corners TL, TR, BR, BL of the raster's box. */
  lemma NorthUpPixelCorners(t: Affine, width: nat, height: nat)
    requires t.b == 0.0 && t.d == 0.0 && t.a > 0.0 && t.e < 0.0
    ensures PixelCorners(t, width, height) == Corners(NorthUpBox(t, width, height))
    ensures DisplayOrder(PixelCorners(t, width, height))
  {
    var w := width as real;
    var h := height as real;
    var x := t.a * w;
    var y := t.e * h;
    SignOfProducts(t.a, w, t.e, h);
    var box := NorthUpBox(t, width, height);
    assert box == Box(t.c, t.f + y, t.c + x, t.f);
    var c := PixelCorners(t, width, height);
    assert c[0] == Apply(t, 0.0, 0.0) == LngLat(t.c, t.f);
    assert c[1] == Apply(t, w, 0.0) == LngLat(t.c + x, t.f);
    assert c[2] == Apply(t, w, h) == LngLat(t.c + x, t.f + y);
    assert c[3] == Apply(t, 0.0, h) == LngLat(t.c, t.f + y);
    assert Corners(box) == [LngLat(t.c, t.f), LngLat(t.c + x, t.f), LngLat(t.c + x, t.f + y), LngLat(t.c, t.f + y)];
    assert c == Corners(box);
    CornersDisplayOrder(box);
  }

  /** A positive scale over a non-negative extent gives a non-negative offset,
      a negative scale a non-positive one. */
  lemma SignOfProducts(a: real, w: real, e: real, h: real)
    requires a > 0.0 && w >= 0.0 && e < 0.0 && h >= 0.0
    ensures a * w >= 0.0 && e * h <= 0.0
  {
  }

  /** What the raster library reports about the source. */
  datatype SourceRaster = SourceRaster(
    crs: Option<string>, epsg: Option<nat>, bounds: Box,
    width: nat, height: nat, count: nat, transform: Affine)

  /** The outcomes of the three transformations (`None`: it raised):
      `transform_bounds` of the box, rasterio's `transform` of the corners, and
      pyproj's transform of the corners for a given source-CRS string. */
  datatype Reprojection = Reprojection(
    transformBounds: Option<Box>,
    rasterioCorners: Option<seq<LngLat>>,
    pyprojCorners: string -> Option<seq<LngLat>>)

  /** `src_crs and src_crs.to_string() != target_crs` */
  predicate Reprojects(crs: Option<string>, targetCrs: string)
  {
    crs.Some? && |crs.value| > 0 && crs.value != targetCrs
  }

  /** The source CRS as handed to pyproj: its EPSG code when it has one, else
      EPSG:32612 when it mentions UTM zone 12N or 32612, else its own string. */
  function PyprojSource(crs: string, epsg: Option<nat>): string
  {
    if epsg.Some? && epsg.value != 0 then "EPSG:" + NatToString(epsg.value)
    else if Contains(crs, "UTM zone 12N") || Contains(crs, "32612") then "EPSG:32612"
    else crs
  }

  /** The first four points of a transformation result, when it has four. */
  function FourCorners(c: Option<seq<LngLat>>): Option<seq<LngLat>>
  {
    if c.Some? && |c.value| >= 4 then Some(c.value[..4]) else None
  }

  /** The corner chain as written: after transform_bounds fails, the pyproj block
      runs whatever rasterio's transform gave, and when pyproj fails too the raw
      pixel corners in the source CRS are used. */
  function CornersAsWritten(src: SourceRaster, targetCrs: string, env: Reprojection): (c: seq<LngLat>)
    ensures |c| == 4
    ensures !Reprojects(src.crs, targetCrs) ==> c == PixelCorners(src.transform, src.width, src.height)
    ensures Reprojects(src.crs, targetCrs) && env.transformBounds.Some? ==> c == Corners(env.transformBounds.value)
    ensures Reprojects(src.crs, targetCrs) && env.transformBounds.None? ==>
      var viaPyproj := FourCorners(env.pyprojCorners(PyprojSource(src.crs.value, src.epsg)));
      c == (if viaPyproj.Some? then viaPyproj.value else PixelCorners(src.transform, src.width, src.height))
  {
    var pixels := PixelCorners(src.transform, src.width, src.height);
    if !Reprojects(src.crs, targetCrs) then pixels
    else match env.transformBounds
      case Some(b) => Corners(b)
      case None =>
        match FourCorners(env.pyprojCorners(PyprojSource(src.crs.value, src.epsg)))
        case Some(c) => c
        case None => pixels
  }

  /** The corners transform_bounds, rasterio's transform and pyproj give, in the
      order they are tried; `None` for one that raised. */
  function Attempts(src: SourceRaster, env: Reprojection): seq<Option<seq<LngLat>>>
    requires src.crs.Some?
  {
    [ if env.transformBounds.Some? then Some(Corners(env.transformBounds.value)) else None,
      FourCorners(env.rasterioCorners),
      FourCorners(env.pyprojCorners(PyprojSource(src.crs.value, src.epsg))) ]
  }

  /** Some transformation of the corners succeeded. */
  predicate SomeAttemptSucceeds(src: SourceRaster, env: Reprojection)
    requires src.crs.Some?
  {
    exists a :: a in Attempts(src, env) && a.Some?
  }

  /** The corners are the result of a transformation that succeeded. */
  predicate FromSuccessfulAttempt(c: seq<LngLat>, src: SourceRaster, env: Reprojection)
    requires src.crs.Some?
  {
    Some(c) in Attempts(src, env)
  }

  /** The intended chain: each fallback only when everything before it failed.
      Whenever any transformation succeeds its corners are used, never the
      source-CRS pixel corners, and transform_bounds wins when it succeeds; the
      pixel corners remain for a raster that needs no reprojection or when every
      transformation failed. */
  function ResolveCorners(src: SourceRaster, targetCrs: string, env: Reprojection): (c: seq<LngLat>)
    ensures |c| == 4
    ensures !Reprojects(src.crs, targetCrs) ==> c == PixelCorners(src.transform, src.width, src.height)
    ensures Reprojects(src.crs, targetCrs) && SomeAttemptSucceeds(src, env) ==> FromSuccessfulAttempt(c, src, env)
    ensures Reprojects(src.crs, targetCrs) && !SomeAttemptSucceeds(src, env) ==>
      c == PixelCorners(src.transform, src.width, src.height)
    ensures Reprojects(src.crs, targetCrs) && env.transformBounds.Some? ==> c == Corners(env.transformBounds.value)
    ensures Reprojects(src.crs, targetCrs) && env.transformBounds.None? && FourCorners(env.rasterioCorners).Some? ==>
      c == FourCorners(env.rasterioCorners).value
  {
    var pixels := PixelCorners(src.transform, src.width, src.height);
    if !Reprojects(src.crs, targetCrs) then pixels
    else match env.transformBounds
      case Some(b) => Corners(b)
      case None =>
        match FourCorners(env.rasterioCorners)
        case Some(c) => c
        case None =>
          match FourCorners(env.pyprojCorners(PyprojSource(src.crs.value, src.epsg)))
          case Some(c) => c
          case None => pixels
  }

  /** As written, a successful rasterio transformation is always discarded: with
      pyproj failing, the source-CRS pixel corners replace it, while the intended
      chain keeps it. */
  lemma RasterioResultDiscarded(src: SourceRaster, targetCrs: string, env: Reprojection)
    requires Reprojects(src.crs, targetCrs) && env.transformBounds.None?
    requires FourCorners(env.rasterioCorners).Some?
    requires FourCorners(env.pyprojCorners(PyprojSource(src.crs.value, src.epsg))).None?
    ensures CornersAsWritten(src, targetCrs, env) == PixelCorners(src.transform, src.width, src.height)
    ensures ResolveCorners(src, targetCrs, env) == FourCorners(env.rasterioCorners).value
  {
  }

  /** A UTM raster whose rasterio transformation succeeds while pyproj fails:
      written out, its bounds are in metres instead of degrees. */
  lemma RasterioResultDiscardedExample(src: SourceRaster, env: Reprojection)
    requires src.crs == Some("EPSG:32633") && src.epsg == Some(32633)
    requires src.transform == Affine(10.0, 0.0, 500000.0, 0.0, -10.0, 4600000.0) && src.width == 100 && src.height == 100
    requires env.transformBounds == None
    requires env.rasterioCorners == Some([LngLat(15.0, 41.5), LngLat(15.01, 41.5), LngLat(15.01, 41.49), LngLat(15.0, 41.49)])
    requires forall c :: env.pyprojCorners(c) == None
    ensures CornersAsWritten(src, "EPSG:4326", env)[0] == LngLat(500000.0, 4600000.0)
    ensures ResolveCorners(src, "EPSG:4326", env)[0] == LngLat(15.0, 41.5)
    ensures SomeAttemptSucceeds(src, env) && !FromSuccessfulAttempt(CornersAsWritten(src, "EPSG:4326", env), src, env)
  {
    RasterioResultDiscarded(src, "EPSG:4326", env);
    var pixels := PixelCorners(src.transform, src.width, src.height);
    assert pixels[0] == Apply(src.transform, 0.0, 0.0);
    var rasterio := FourCorners(env.rasterioCorners);
    assert rasterio.Some? && rasterio.value[0] == LngLat(15.0, 41.5);
    assert Attempts(src, env) == [None, rasterio, None];
    assert rasterio in Attempts(src, env);
    assert Some(pixels) != rasterio;
  }

  // ---------------------------------------------------------------------------
  // Output paths
  // ---------------------------------------------------------------------------

  /** The index of the last occurrence of `c`, or -1. */
  function LastIndex(s: string, c: char): (i: int)
    ensures -1 <= i < |s|
    ensures i >= 0 ==> s[i] == c && forall j :: i < j < |s| ==> s[j] != c
    ensures i == -1 ==> forall j :: 0 <= j < |s| ==> s[j] != c
  {
    if |s| == 0 then -1
    else if s[|s| - 1] == c then |s| - 1
    else LastIndex(s[..|s| - 1], c)
  }

  /** POSIX `os.path.splitext`: the extension starts at the last dot of the last
      path component, provided something other than dots precedes it there. */
  function SplitExt(p: string): (r: (string, string))
    ensures r.0 + r.1 == p
    ensures r.1 == [] || (r.1[0] == '.' && forall j :: 0 <= j < |r.1| ==> r.1[j] != '/')
    ensures |r.1| > 0 ==> forall j :: 1 <= j < |r.1| ==> r.1[j] != '.'
  {
    var sep := LastIndex(p, '/');
    var dot := LastIndex(p, '.');
    if dot > sep && exists k :: sep + 1 <= k < dot && p[k] != '.' then
      assert p[..dot] + p[dot..] == p;
      (p[..dot], p[dot..])
    else (p, "")
  }

  /** A file name with one extension in a directory splits into the path
      without the extension and the extension. */
  lemma SplitExtOfFileName(dir: string, name: string, ext: string)
    requires |name| > 0 && name[0] != '.'
    requires forall j :: 0 <= j < |name| ==> name[j] != '/'
    requires forall j :: 0 <= j < |ext| ==> ext[j] != '/' && ext[j] != '.'
    ensures SplitExt(dir + "/" + name + "." + ext) == (dir + "/" + name, "." + ext)
  {
    var p := dir + "/" + name + "." + ext;
    var dot := |dir| + 1 + |name|;
    assert p[dot] == '.';
    assert forall j :: dot < j < |p| ==> p[j] == ext[j - dot - 1];
    assert LastIndex(p, '.') == dot;
    var sep := LastIndex(p, '/');
    assert p[|dir|] == '/';
    assert forall j :: |dir| < j < |p| ==> p[j] != '/' by {
      forall j | |dir| < j < |p| ensures p[j] != '/' {
        if j < dot {
          assert p[j] == name[j - |dir| - 1];
        } else if j > dot {
          assert p[j] == ext[j - dot - 1];
        }
      }
    }
    assert sep == |dir|;
    assert p[sep + 1] == name[0] != '.';
    assert p[..dot] == dir + "/" + name;
    assert p[dot..] == "." + ext;
  }

  function DefaultPngPath(geotiffPath: string): string
  {
    SplitExt(geotiffPath).0 + ".png"
  }

  function DefaultBoundsPath(geotiffPath: string): string
  {
    SplitExt(geotiffPath).0 + "_bounds.json"
  }

  /** `map/s2/tile.geotiff` gets `map/s2/tile.png` and `map/s2/tile_bounds.json`. */
  lemma DefaultPaths(dir: string, name: string, ext: string)
    requires |name| > 0 && name[0] != '.'
    requires forall j :: 0 <= j < |name| ==> name[j] != '/'
    requires forall j :: 0 <= j < |ext| ==> ext[j] != '/' && ext[j] != '.'
    ensures DefaultPngPath(dir + "/" + name + "." + ext) == dir + "/" + name + ".png"
    ensures DefaultBoundsPath(dir + "/" + name + "." + ext) == dir + "/" + name + "_bounds.json"
  {
    SplitExtOfFileName(dir, name, ext);
  }

  // ---------------------------------------------------------------------------
  // convert_geotiff_to_png
  // ---------------------------------------------------------------------------

  datatype Converted = Converted(pngPath: string, boundsPath: string, rgb: Rgb, bounds: BoundsFile)

  /** The conversion with the intended band reading and corner chain. It raises
      when a chosen band does not exist and, after the image is written, when the
      raster has no CRS object (`None.to_string()`). */
  function Convert(geotiffPath: string, outputPng: Option<string>, outputBounds: Option<string>,
                   targetCrs: string, bandIndices: Option<seq<int>>,
                   src: SourceRaster, env: Reprojection): (r: Result<Converted, string>)
    ensures r.Ok? ==>
      && src.crs.Some?
      && r.value.pngPath == (if outputPng.Some? then outputPng.value else DefaultPngPath(geotiffPath))
      && r.value.boundsPath == (if outputBounds.Some? then outputBounds.value else DefaultBoundsPath(geotiffPath))
      && Ok(r.value.rgb) == SelectBands(ReadBands(src.count).value, bandIndices)
      && |r.value.bounds.features| == 1 && |r.value.bounds.features[0].rings| == 1
      && r.value.bounds.features[0].rings[0] == RingJson(CloseRing(ResolveCorners(src, targetCrs, env)))
    ensures r.Err? <==> src.crs.None? || SelectBands(ReadBands(src.count).value, bandIndices).Err?
  {
    var count := ReadBands(src.count).value;
    match SelectBands(count, bandIndices)
    case Err(e) => Err(e)
    case Ok(rgb) =>
      var png := if outputPng.Some? then outputPng.value else DefaultPngPath(geotiffPath);
      var corners := ResolveCorners(src, targetCrs, env);
      if src.crs.None? then Err("'NoneType' object has no attribute 'to_string'")
      else
        var doc := BoundsFile([BoundsFeature([RingJson(CloseRing(corners))], map[
          "source_crs" := JStr(src.crs.value),
          "target_crs" := JStr(targetCrs),
          "width" := JNum(src.width as real),
          "height" := JNum(src.height as real),
          "num_bands" := JNum(src.count as real)])]);
        var boundsPath := if outputBounds.Some? then outputBounds.value else DefaultBoundsPath(geotiffPath);
        Ok(Converted(png, boundsPath, rgb, doc))
  }

  /** The bounds ring closes: five points, the last equal to the first, and for
      a raster already in the target CRS with a north-up transform it is the
      display ring of the raster's box. */
  lemma ConvertedRingCloses(geotiffPath: string, outputPng: Option<string>, outputBounds: Option<string>,
                            targetCrs: string, bandIndices: Option<seq<int>>, src: SourceRaster, env: Reprojection)
    requires Convert(geotiffPath, outputPng, outputBounds, targetCrs, bandIndices, src, env).Ok?
    ensures var ring := Convert(geotiffPath, outputPng, outputBounds, targetCrs, bandIndices, src, env).value.bounds.features[0].rings[0];
      && |ring| == 5 && ring[4] == ring[0]
      && (!Reprojects(src.crs, targetCrs) && src.transform.b == 0.0 && src.transform.d == 0.0
          && src.transform.a > 0.0 && src.transform.e < 0.0 ==>
            ring == RingJson(CloseRing(Corners(NorthUpBox(src.transform, src.width, src.height)))))
  {
    var corners := ResolveCorners(src, targetCrs, env);
    var r := Convert(geotiffPath, outputPng, outputBounds, targetCrs, bandIndices, src, env).value;
    assert r.bounds.features[0].rings[0] == RingJson(CloseRing(corners));
    ClosedRingJson(corners);
    if !Reprojects(src.crs, targetCrs) && src.transform.b == 0.0 && src.transform.d == 0.0
       && src.transform.a > 0.0 && src.transform.e < 0.0 {
      var t := src.transform;
      NorthUpPixelCorners(t, src.width, src.height);
      assert corners == PixelCorners(t, src.width, src.height);
      var box := NorthUpBox(t, src.width, src.height);
      assert corners == Corners(box);
      assert r.bounds.features[0].rings[0] == RingJson(CloseRing(Corners(box)));
    }
  }

  /** The JSON ring of four corners has five points and ends where it starts. */
  lemma ClosedRingJson(c: seq<LngLat>)
    requires |c| == 4
    ensures |RingJson(CloseRing(c))| == 5 && RingJson(CloseRing(c))[4] == RingJson(CloseRing(c))[0]
  {
  }

  // ---------------------------------------------------------------------------
  // Command line
  // ---------------------------------------------------------------------------

  predicate IsSpace(c: char) { c == ' ' || c == '\t' || c == '\n' || c == '\r' || c == '\U{B}' || c == '\U{C}' || '\U{1C}' <= c <= '\U{1F}' }

  /** `str.strip()` restricted to ASCII white space. */
  function Strip(s: string): (t: string)
    ensures |t| <= |s|
    ensures |t| > 0 ==> !IsSpace(t[0]) && !IsSpace(t[|t| - 1])
    ensures (forall j :: 0 <= j < |s| ==> !IsSpace(s[j])) ==> t == s
    decreases |s|
  {
    if |s| > 0 && IsSpace(s[0]) then Strip(s[1..])
    else if |s| > 0 && IsSpace(s[|s| - 1]) then Strip(s[..|s| - 1])
    else s
  }

  /** Digits with single underscores between them, as `int()` accepts. */
  predicate DigitGroups(s: string)
  {
    && |s| > 0 && IsDigit(s[0]) && IsDigit(s[|s| - 1])
    && (forall j :: 0 <= j < |s| ==> IsDigit(s[j]) || s[j] == '_')
    && (forall j :: 0 <= j < |s| - 1 ==> !(s[j] == '_' && s[j + 1] == '_'))
  }

  function Digits(s: string): (d: string)
    ensures AllDigits(d)
    ensures AllDigits(s) ==> d == s
  {
    if s == [] then []
    else if IsDigit(s[0]) then [s[0]] + Digits(s[1..])
    else Digits(s[1..])
  }

  /** Python's `int(s)` for base 10, over ASCII digits: surrounding white space,
      an optional sign and underscores between digits are accepted; anything
      else raises ValueError, here `None`. */
  function PyInt(s: string): Option<int>
  {
    var t := Strip(s);
    if |t| > 0 && t[0] == '-' then
      (match Unsigned(t[1..]) case Some(v) => Some(-(v as int)) case None => None)
    else if |t| > 0 && t[0] == '+' then OptionInt(Unsigned(t[1..]))
    else OptionInt(Unsigned(t))
  }

  /** The digits of an unsigned integer literal. */
  function Unsigned(body: string): (r: Option<nat>)
    ensures AllDigits(body) && |body| > 0 ==> r == Some(DigitsValue(body))
  {
    if DigitGroups(body) then Some(DigitsValue(Digits(body))) else None
  }

  function OptionInt(o: Option<nat>): Option<int>
  {
    match o case Some(v) => Some(v) case None => None
  }

  /** `int()` reads a string of ASCII digits as its decimal value, so it reads
      back what `str()` writes for a natural number. */
  lemma {:induction false} PyIntOfDigits(s: string)
    requires AllDigits(s) && |s| > 0
    ensures PyInt(s) == Some(DigitsValue(s))
  {
    NoSpaceInDigits(s);
    assert Strip(s) == s;
    assert IsDigit(s[0]);
    assert Unsigned(s) == Some(DigitsValue(s));
  }

  /** With a leading minus sign it reads the negated value. */
  lemma {:induction false} PyIntOfNegativeDigits(s: string)
    requires AllDigits(s) && |s| > 0
    ensures PyInt("-" + s) == Some(-(DigitsValue(s) as int))
  {
    NegativeNoSpace(s);
    var m := "-" + s;
    assert m[0] == '-' && m[1..] == s;
    assert Unsigned(s) == Some(DigitsValue(s));
  }

  lemma {:induction false} NegativeNoSpace(s: string)
    requires AllDigits(s) && |s| > 0
    ensures Strip("-" + s) == "-" + s
  {
    var m := "-" + s;
    NoSpaceInDigits(s);
    forall j | 0 <= j < |m| ensures !IsSpace(m[j]) {
      if j > 0 {
        assert m[j] == s[j - 1];
      }
    }
  }

  lemma {:induction false} NoSpaceInDigits(s: string)
    requires AllDigits(s)
    ensures forall j :: 0 <= j < |s| ==> !IsSpace(s[j])
  {
    forall j | 0 <= j < |s| ensures !IsSpace(s[j]) {
      assert IsDigit(s[j]);
    }
  }

  /** The word `None` and the empty string are not integers. */
  lemma PyIntRefuses(none: string)
    requires none == "None"
    ensures PyInt(none) == None && PyInt("") == None
  {
    assert Strip(none) == none;
    assert !IsDigit(none[0]);
  }

  /** The arguments convert_geotiff_to_png is called with. */
  datatype Invocation = Invocation(geotiffPath: string, outputPng: Option<string>,
                                   outputBounds: Option<string>, bandIndices: Option<seq<int>>)

  datatype CommandLine = Usage | Crashed(reason: string) | Run(call: Invocation)

  /** `sys.argv[i] if len(sys.argv) > i and sys.argv[i] != 'None' else None` */
  function OptionalArg(argv: seq<string>, i: nat): Option<string>
  {
    if |argv| > i && argv[i] != "None" then Some(argv[i]) else None
  }

  /** The command line as written: band indices are read when there are at
      least six arguments (counting the script), from positions 4, 5 and 6, and
      only ValueError is caught. */
  function CommandLineAsWritten(argv: seq<string>): (r: CommandLine)
    ensures r == Usage <==> |argv| < 2
  {
    if |argv| < 2 then Usage
    else
      var call := Invocation(argv[1], OptionalArg(argv, 2), OptionalArg(argv, 3), None);
      if |argv| >= 6 then
        match (PyInt(argv[4]), PyInt(argv[5]))
        case (Some(r), Some(g)) =>
          if |argv| < 7 then Crashed("IndexError: list index out of range")
          else (match PyInt(argv[6])
            case Some(b) => Run(call.(bandIndices := Some([r, g, b])))
            case None => Run(call))
        case _ => Run(call)
      else Run(call)
  }

  /** The intended command line: band indices need all three arguments. */
  function ParseCommandLine(argv: seq<string>): (r: CommandLine)
    ensures r == Usage <==> |argv| < 2
    ensures !r.Crashed?
    ensures r.Run? ==>
      && r.call.geotiffPath == argv[1]
      && r.call.outputPng == OptionalArg(argv, 2) && r.call.outputBounds == OptionalArg(argv, 3)
      && (r.call.bandIndices.Some? <==>
            |argv| >= 7 && PyInt(argv[4]).Some? && PyInt(argv[5]).Some? && PyInt(argv[6]).Some?)
      && (r.call.bandIndices.Some? ==>
            r.call.bandIndices.value == [PyInt(argv[4]).value, PyInt(argv[5]).value, PyInt(argv[6]).value])
    ensures |argv| != 6 ==> r == CommandLineAsWritten(argv)
  {
    if |argv| < 2 then Usage
    else
      var call := Invocation(argv[1], OptionalArg(argv, 2), OptionalArg(argv, 3), None);
      if |argv| >= 7 then
        match (PyInt(argv[4]), PyInt(argv[5]), PyInt(argv[6]))
        case (Some(r), Some(g), Some(b)) => Run(call.(bandIndices := Some([r, g, b])))
        case _ => Run(call)
      else Run(call)
  }

  /** With exactly six arguments and two valid indices the script as written
      crashes, where the intended command line runs with the default bands. */
  lemma SixArgumentsCrash(argv: seq<string>)
    requires |argv| == 6 && PyInt(argv[4]).Some? && PyInt(argv[5]).Some?
    ensures CommandLineAsWritten(argv).Crashed?
    ensures ParseCommandLine(argv) == Run(Invocation(argv[1], OptionalArg(argv, 2), OptionalArg(argv, 3), None))
  {
  }

  /** The documented example `file.geotiff None None 3 2 1` asks for bands 3, 2 and 1 with default outputs. */
  lemma DocumentedExample(argv: seq<string>, path: string)
    requires |argv| == 7 && argv[1] == path && argv[2] == "None" && argv[3] == "None"
    requires argv[4] == "3" && argv[5] == "2" && argv[6] == "1"
    ensures ParseCommandLine(argv) == Run(Invocation(path, None, None, Some([3, 2, 1])))
  {
    PyIntOfDigits("3");
    PyIntOfDigits("2");
    PyIntOfDigits("1");
    assert argv[2] == "None" && argv[3] == "None";
    assert OptionalArg(argv, 2) == None && OptionalArg(argv, 3) == None;
    assert PyInt(argv[4]) == Some(3) && PyInt(argv[5]) == Some(2) && PyInt(argv[6]) == Some(1);
  }
}
