/** The shapes of the GeoJSON documents the scripts read and write: points,
    bounding boxes, the display-corner quadruple and its closed ring, and
    point features with flat JSON properties. */
module GeoJson {

  /** A `[longitude, latitude]` pair, longitude first as GeoJSON requires. */
  datatype LngLat = LngLat(lng: real, lat: real)

  /** A bounding box `(west, south, east, north)`, the order of rasterio's
      `transform_bounds` and of a `(lon_min, lat_min, lon_max, lat_max)` tuple. */
  datatype Box = Box(minLng: real, minLat: real, maxLng: real, maxLat: real)

  predicate WellOrdered(b: Box) { b.minLng <= b.maxLng && b.minLat <= b.maxLat }

  /** Scalar JSON values as they occur in feature properties (`None` is `JNull`). */
  datatype Json = JNull | JNum(num: real) | JStr(str: string)

  /** A GeoJSON `Point` feature with its property object. */
  datatype Feature = Feature(point: LngLat, properties: map<string, Json>)

  // ---------------------------------------------------------------------------
  // Display corners: top-left, top-right, bottom-right, bottom-left
  // ---------------------------------------------------------------------------

  /** The four corners of a box in the fixed display order TL, TR, BR, BL. */
  function Corners(b: Box): seq<LngLat>
  {
    [ LngLat(b.minLng, b.maxLat),   // top-left
      LngLat(b.maxLng, b.maxLat),   // top-right
      LngLat(b.maxLng, b.minLat),   // bottom-right
      LngLat(b.minLng, b.minLat) ]  // bottom-left
  }

  /** Four points form a north-up rectangle listed TL, TR, BR, BL: the first two
      share the top latitude, the last two the bottom one, the first and last the
      western longitude, the middle two the eastern one, west of east, south of north. */
  predicate DisplayOrder(c: seq<LngLat>)
  {
    && |c| == 4
    && c[0].lat == c[1].lat && c[2].lat == c[3].lat
    && c[0].lng == c[3].lng && c[1].lng == c[2].lng
    && c[0].lng <= c[1].lng && c[3].lat <= c[0].lat
  }

  /** The box a display quadruple spans. */
  function BoxOf(c: seq<LngLat>): Box
    requires |c| == 4
  {
    Box(c[0].lng, c[3].lat, c[1].lng, c[0].lat)
  }

  /** Corners lists every well-ordered box in display order, and every display
      quadruple is the Corners of the box it spans: the two views coincide. */
  lemma CornersDisplayOrder(b: Box)
    requires WellOrdered(b)
    ensures DisplayOrder(Corners(b)) && BoxOf(Corners(b)) == b
  {
  }

  lemma DisplayOrderIsCorners(c: seq<LngLat>)
    requires DisplayOrder(c)
    ensures WellOrdered(BoxOf(c)) && Corners(BoxOf(c)) == c
  {
  }

  /** The ring written to a bounds file: the corners followed by the first corner again. */
  function CloseRing(c: seq<LngLat>): seq<LngLat>
    requires |c| > 0
  {
    c + [c[0]]
  }

  /** A ring as the JSON array of `[lng, lat]` arrays it is written as. */
  function RingJson(ring: seq<LngLat>): (j: seq<seq<real>>)
    ensures |j| == |ring|
    ensures forall i :: 0 <= i < |ring| ==> j[i] == [ring[i].lng, ring[i].lat]
  {
    seq(|ring|, i requires 0 <= i < |ring| => [ring[i].lng, ring[i].lat])
  }

  /** One feature of a bounds file as the consolidator reads it: the polygon's
      rings (`coordinates`, outer ring first) and the property object. */
  datatype BoundsFeature = BoundsFeature(rings: seq<seq<seq<real>>>, properties: map<string, Json>)

  /** A bounds file: a FeatureCollection of bounds features. */
  datatype BoundsFile = BoundsFile(features: seq<BoundsFeature>)

  /** Twice the signed area of a closed ring (shoelace formula); negative for a
      ring traversed clockwise with longitude to the east and latitude to the north. */
  function ShoelaceSum(ring: seq<LngLat>): real
    decreases |ring|
  {
    if |ring| < 2 then 0.0
    else ring[0].lng * ring[1].lat - ring[1].lng * ring[0].lat + ShoelaceSum(ring[1..])
  }

  /** The closed display ring has five points, starts and ends at the top-left
      corner, keeps the corners in order, and runs clockwise: its signed area is
      minus the box's area. */
  lemma DisplayRingShape(b: Box)
    ensures var r := CloseRing(Corners(b));
      && |r| == 5 && r[0] == r[4] && r[..4] == Corners(b)
      && ShoelaceSum(r) == -2.0 * (b.maxLng - b.minLng) * (b.maxLat - b.minLat)
  {
    var r := CloseRing(Corners(b));
    var w, s, e, n := b.minLng, b.minLat, b.maxLng, b.maxLat;
    assert r[4..] == [r[4]] && ShoelaceSum(r[4..]) == 0.0;
    assert r[3..][1..] == r[4..];
    assert ShoelaceSum(r[3..]) == w * n - w * s;
    assert r[2..][1..] == r[3..];
    assert ShoelaceSum(r[2..]) == e * s - w * s + w * n - w * s;
    assert r[1..][1..] == r[2..];
    assert ShoelaceSum(r[1..]) == e * s - e * n + e * s - w * s + w * n - w * s;
    assert r[0..][1..] == r[1..];
    assert ShoelaceSum(r) == w * n - e * n + e * s - e * n + e * s - w * s + w * n - w * s;
  }
}
