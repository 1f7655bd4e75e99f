/** The consolidation pass over the web-map output: one `bounds.json` per city
    and year built from the per-month bounds files, the deletion of the old
    bounds files and of PNG images that have a WebP twin, one station file per
    pollutant built by concatenating the per-month station files, and the
    deletion of the per-month station files. Directories are listings of names;
    file contents are the decoded documents. */
module Consolidate {
  import opened Common
  import opened GeoJson
  import TifFilename
  import WebmapConverter
  import StationsGeojson

  /** The cities and years the three city-and-year passes walk through. */
  const Cities: seq<string> := ["Bologna", "Frascati", "Milano"]
  const Years: seq<string> := ["2024", "2025"]

  predicate StartsWith(s: string, prefix: string) { |prefix| <= |s| && s[..|prefix|] == prefix }

  predicate EndsWith(s: string, suffix: string) { |suffix| <= |s| && s[|s| - |suffix|..] == suffix }

  /** The elements of a listing a predicate accepts, in listing order. */
  function Filter(s: seq<string>, keep: string -> bool): (r: seq<string>)
    ensures |r| <= |s|
  {
    if s == [] then []
    else Filter(s[..|s| - 1], keep) + (if keep(s[|s| - 1]) then [s[|s| - 1]] else [])
  }

  /** The filtered listing holds exactly the entries of the listing that are kept. */
  lemma {:induction false} FilterMembers(s: seq<string>, keep: string -> bool)
    ensures forall x :: x in Filter(s, keep) <==> x in s && keep(x)
  {
    if s != [] {
      FilterMembers(s[..|s| - 1], keep);
      assert forall x :: x in s <==> x in s[..|s| - 1] || x == s[|s| - 1];
    }
  }

  /** Filtering a listing one more entry longer appends that entry when it is kept. */
  lemma FilterPush(s: seq<string>, x: string, keep: string -> bool)
    ensures Filter(s + [x], keep) == Filter(s, keep) + (if keep(x) then [x] else [])
  {
    assert (s + [x])[..|s|] == s;
  }

  // ---------------------------------------------------------------------------
  // bounds.json
  // ---------------------------------------------------------------------------

  /** `first_bounds['features'][0]['geometry']['coordinates'][0]`, then
      `[coords[i][0], coords[i][1]]` for the first four points; `None` where the
      source raises an IndexError. */
  function ConsolidatedCoordinates(first: BoundsFile): (r: Option<seq<seq<real>>>)
    ensures r.Some? ==>
      && |first.features| > 0 && |first.features[0].rings| > 0
      && var ring := first.features[0].rings[0];
         |ring| >= 4 && |r.value| == 4
         && forall i :: 0 <= i < 4 ==> |ring[i]| >= 2 && r.value[i] == ring[i][..2]
    ensures r.None? ==>
      || |first.features| == 0 || |first.features[0].rings| == 0
      || |first.features[0].rings[0]| < 4
      || exists i :: 0 <= i < 4 && |first.features[0].rings[0][i]| < 2
  {
    if |first.features| == 0 || |first.features[0].rings| == 0 then None
    else
      var ring := first.features[0].rings[0];
      if |ring| < 4 || |ring[0]| < 2 || |ring[1]| < 2 || |ring[2]| < 2 || |ring[3]| < 2 then None
      else
        var coords := [[ring[0][0], ring[0][1]], [ring[1][0], ring[1][1]],
                       [ring[2][0], ring[2][1]], [ring[3][0], ring[3][1]]];
        assert forall i :: 0 <= i < 4 ==> coords[i] == ring[i][..2];
        Some(coords)
  }

  /** The entry kept for a pollutant; the colour map defaults to "inferno". */
  datatype PollutantInfo = PollutantInfo(vmin: Json, vmax: Json, colormap: Json)

  /** The pollutant table in insertion order (the order `list(pollutants.keys())` prints). */
  datatype Table = Table(order: seq<Json>, info: map<Json, PollutantInfo>)

  /** `data['features'][0]['properties']`, `None` on an IndexError. */
  function FirstProperties(f: BoundsFile): Option<map<string, Json>>
  {
    if |f.features| == 0 then None else Some(f.features[0].properties)
  }

  /** One iteration of the table loop: the pollutant is always read; `vmin` and
      `vmax` only for a pollutant not seen before. `None`: a KeyError or IndexError. */
  function TableStep(t: Table, f: BoundsFile): Option<Table>
  {
    match FirstProperties(f)
    case None => None
    case Some(props) =>
      if "pollutant" !in props then None
      else
        var p := props["pollutant"];
        if p in t.info then Some(t)
        else if "vmin" !in props || "vmax" !in props then None
        else
          var colormap := if "colormap" in props then props["colormap"] else JStr("inferno");
          Some(Table(t.order + [p], t.info[p := PollutantInfo(props["vmin"], props["vmax"], colormap)]))
  }

  /** The table after the whole loop. */
  function TableOf(files: seq<BoundsFile>): Option<Table>
  {
    if files == [] then Some(Table([], map[]))
    else
      match TableOf(files[..|files| - 1])
      case None => None
      case Some(t) => TableStep(t, files[|files| - 1])
  }

  /** The loop of consolidate_bounds_files that builds the pollutant table. */
  method BuildPollutantTable(files: seq<BoundsFile>) returns (r: Option<Table>)
    ensures r == TableOf(files)
  {
    var t := Table([], map[]);
    var i := 0;
    while i < |files|
      invariant 0 <= i <= |files|
      invariant TableOf(files[..i]) == Some(t)
    {
      assert files[..i + 1][..i] == files[..i];
      var next := TableStep(t, files[i]);
      if next.None? {
        assert TableOf(files[..i + 1]).None?;
        assert forall j :: i < j <= |files| ==> TableOf(files[..j]).None? by {
          forall j | i < j <= |files| ensures TableOf(files[..j]).None? {
            TableNoneStays(files, i + 1, j);
          }
        }
        assert files[..|files|] == files;
        return None;
      }
      t := next.value;
      i := i + 1;
    }
    assert files[..i] == files;
    return Some(t);
  }

  /** Once the loop has raised it stays raised. */
  lemma {:induction false} TableNoneStays(files: seq<BoundsFile>, i: nat, j: nat)
    requires i <= j <= |files| && TableOf(files[..i]).None?
    ensures TableOf(files[..j]).None?
    decreases j - i
  {
    if i < j {
      assert files[..i + 1][..i] == files[..i];
      TableNoneStays(files, i + 1, j);
    }
  }

  function PollutantOf(f: BoundsFile): Option<Json>
  {
    if FirstProperties(f).Some? && "pollutant" in FirstProperties(f).value then
      Some(FirstProperties(f).value["pollutant"])
    else None
  }

  /** File `i` is the first of the files naming pollutant `p`. */
  predicate FirstWith(files: seq<BoundsFile>, p: Json, i: int)
  {
    0 <= i < |files| && PollutantOf(files[i]) == Some(p)
    && forall j :: 0 <= j < i ==> PollutantOf(files[j]) != Some(p)
  }

  function InfoOf(props: map<string, Json>): PollutantInfo
    requires "vmin" in props && "vmax" in props
  {
    PollutantInfo(props["vmin"], props["vmax"], if "colormap" in props then props["colormap"] else JStr("inferno"))
  }

  /** What one successful step does to the table: the file's pollutant is a key
      afterwards, an existing entry is never changed, and a new pollutant is
      appended with the file's own scale. */
  lemma TableStepFacts(t: Table, f: BoundsFile)
    requires TableStep(t, f).Some?
    ensures var t2 := TableStep(t, f).value;
      var p := PollutantOf(f).value;
      && PollutantOf(f).Some?
      && t2.info.Keys == t.info.Keys + {p}
      && p in t2.info
      && (forall q :: q in t.info ==> q in t2.info && t2.info[q] == t.info[q])
      && (p in t.info ==> t2 == t)
      && (p !in t.info ==>
            && t2.order == t.order + [p]
            && "vmin" in FirstProperties(f).value && "vmax" in FirstProperties(f).value
            && t2.info[p] == InfoOf(FirstProperties(f).value))
  {
  }

  /** The table's keys are exactly its order, listed once each, and include
      the pollutant of every file read. */
  ghost predicate KeyedTable(t: Table, files: seq<BoundsFile>)
  {
    && (forall x :: x in t.info <==> x in t.order)
    && (forall a, b :: 0 <= a < b < |t.order| ==> t.order[a] != t.order[b])
    && (forall i :: 0 <= i < |files| ==> PollutantOf(files[i]).Some? && PollutantOf(files[i]).value in t.info)
  }

  lemma {:induction false} TableKeys(files: seq<BoundsFile>)
    requires TableOf(files).Some?
    ensures KeyedTable(TableOf(files).value, files)
  {
    if files != [] {
      var n := |files| - 1;
      var prefix := files[..n];
      TableKeys(prefix);
      assert TableOf(files) == TableStep(TableOf(prefix).value, files[n]);
      TableKeysStep(TableOf(prefix).value, files);
    }
  }

  /** One successful step of the table loop keeps the table keyed. */
  lemma TableKeysStep(t0: Table, files: seq<BoundsFile>)
    requires files != []
    requires TableStep(t0, files[|files| - 1]).Some? && KeyedTable(t0, files[..|files| - 1])
    ensures KeyedTable(TableStep(t0, files[|files| - 1]).value, files)
  {
    var f := files[|files| - 1];
    var prefix := files[..|files| - 1];
    TableStepFacts(t0, f);
    var t := TableStep(t0, f).value;
    var p := PollutantOf(f).value;
    if p !in t0.info {
      assert p !in t0.order;
      assert t.order == t0.order + [p];
      forall a, b | 0 <= a < b < |t.order| ensures t.order[a] != t.order[b] {
        if b == |t0.order| {
          assert t.order[a] == t0.order[a];
        }
      }
    } else {
      assert t == t0;
    }
    forall i | 0 <= i < |files| ensures PollutantOf(files[i]).Some? && PollutantOf(files[i]).value in t.info {
      if i < |prefix| {
        assert files[i] == prefix[i];
        assert PollutantOf(files[i]).value in t0.info;
      }
    }
  }

  /** Every entry holds the scale of the first file naming its pollutant: later
      files never overwrite an entry. */
  lemma {:induction false} TableFirstOccurrence(files: seq<BoundsFile>, p: Json)
    requires TableOf(files).Some? && p in TableOf(files).value.info
    ensures exists i :: (FirstWith(files, p, i)
      && "vmin" in FirstProperties(files[i]).value && "vmax" in FirstProperties(files[i]).value
      && TableOf(files).value.info[p] == InfoOf(FirstProperties(files[i]).value))
  {
    var n := |files| - 1;
    var prefix := files[..n];
    var t0 := TableOf(prefix).value;
    TableStepFacts(t0, files[n]);
    assert forall i :: 0 <= i < n ==> files[i] == prefix[i];
    if p in t0.info {
      TableFirstOccurrence(prefix, p);
      var i :| FirstWith(prefix, p, i)
        && "vmin" in FirstProperties(prefix[i]).value && "vmax" in FirstProperties(prefix[i]).value
        && t0.info[p] == InfoOf(FirstProperties(prefix[i]).value);
      assert FirstWith(files, p, i);
    } else {
      TableKeys(prefix);
      forall j | 0 <= j < n ensures PollutantOf(files[j]) != Some(p) {
        assert files[j] == prefix[j];
        assert PollutantOf(prefix[j]).Some? && PollutantOf(prefix[j]).value in t0.info;
      }
      assert FirstWith(files, p, n);
    }
  }

  /** The document written to `bounds.json`. */
  datatype ConsolidatedBounds = ConsolidatedBounds(
    city: string, year: string, coordinates: seq<seq<real>>, pollutants: Table)

  /** What happens for one city and year: no bounds files, an exception that
      stops the script, or `bounds.json` written. */
  datatype BoundsOutcome = NoBoundsFiles | Raised | Written(doc: ConsolidatedBounds)

  function ConsolidateCityYear(city: string, year: string, files: seq<BoundsFile>): (r: BoundsOutcome)
    ensures files == [] <==> r == NoBoundsFiles
    ensures r.Written? ==>
      && r.doc.city == city && r.doc.year == year
      && Some(r.doc.coordinates) == ConsolidatedCoordinates(files[0])
      && Some(r.doc.pollutants) == TableOf(files)
    ensures r == Raised <==> files != [] && (ConsolidatedCoordinates(files[0]).None? || TableOf(files).None?)
  {
    if files == [] then NoBoundsFiles
    else
      match ConsolidatedCoordinates(files[0])
      case None => Raised
      case Some(coords) =>
        match TableOf(files)
        case None => Raised
        case Some(t) => Written(ConsolidatedBounds(city, year, coords, t))
  }

  /** The bounds files the web-map converter writes for a sequence of rasters. */
  function ConverterFiles(extents: seq<Box>, keys: seq<TifFilename.TifKey>, clips: seq<string>): (files: seq<BoundsFile>)
    requires |extents| == |keys| == |clips|
    ensures |files| == |keys|
    ensures forall i :: 0 <= i < |keys| ==> files[i] == WebmapConverter.BoundsDocument(extents[i], keys[i], clips[i])
  {
    seq(|keys|, i requires 0 <= i < |keys| => WebmapConverter.BoundsDocument(extents[i], keys[i], clips[i]))
  }

  /** The table entry the converter's bounds files give a pollutant. */
  function ScaleInfo(pollutant: string): PollutantInfo
  {
    var s := WebmapConverter.ScaleFor(pollutant);
    PollutantInfo(JNum(s.vmin as real), JNum(s.vmax as real), JStr("inferno"))
  }

  /** On the converter's own output the consolidation never raises: its
      coordinates are the display corners TL, TR, BR, BL of the first file's
      extent, and every pollutant maps to its scale with the inferno colour map. */
  lemma ConsolidatingConverterOutput(city: string, year: string, extents: seq<Box>,
                                     keys: seq<TifFilename.TifKey>, clips: seq<string>)
    requires |extents| == |keys| == |clips| > 0
    ensures var r := ConsolidateCityYear(city, year, ConverterFiles(extents, keys, clips));
      && r.Written?
      && r.doc.coordinates == RingJson(Corners(extents[0]))
      && (forall i :: 0 <= i < |keys| ==> JStr(keys[i].pollutant) in r.doc.pollutants.info)
      && (forall p :: p in r.doc.pollutants.info ==> p.JStr? && r.doc.pollutants.info[p] == ScaleInfo(p.str))
  {
    var files := ConverterFiles(extents, keys, clips);
    DisplayRingShape(extents[0]);
    ConverterTable(extents, keys, clips);
    var coords := ConsolidatedCoordinates(files[0]).value;
    var ring := files[0].features[0].rings[0];
    assert ring == RingJson(CloseRing(Corners(extents[0])));
    forall i | 0 <= i < 4 ensures coords[i] == RingJson(Corners(extents[0]))[i] {
      assert coords[i] == ring[i][..2];
    }
  }

  /** The bounds files of a run of conversions, one per raster of a directory,
      in listing order. */
  function ConvertedBoundsFiles(tifPaths: seq<string>, names: seq<string>, skipExisting: bool,
                                city: Option<string>, envs: seq<WebmapConverter.Environment>): seq<BoundsFile>
    requires |tifPaths| == |names| == |envs|
    requires forall i :: 0 <= i < |names| ==>
      WebmapConverter.ConvertSingleTif(tifPaths[i], names[i], skipExisting, city, envs[i]).Converted?
  {
    seq(|names|, i requires 0 <= i < |names| =>
      WebmapConverter.ConvertSingleTif(tifPaths[i], names[i], skipExisting, city, envs[i]).bounds)
  }

  /** What convert_single_tif writes is what consolidate_bounds_files reads: for
      any directory of converted rasters, in any listing order, the consolidation
      never raises, its coordinates are TL, TR, BR, BL of the first file's WGS84
      extent and every converted pollutant maps to its scale. */
  lemma ConsolidatingConvertedTifs(cityName: string, year: string, tifPaths: seq<string>, names: seq<string>,
                                   skipExisting: bool, city: Option<string>, envs: seq<WebmapConverter.Environment>)
    requires |tifPaths| == |names| == |envs| > 0
    requires forall i :: 0 <= i < |names| ==>
      WebmapConverter.ConvertSingleTif(tifPaths[i], names[i], skipExisting, city, envs[i]).Converted?
    ensures var r := ConsolidateCityYear(cityName, year, ConvertedBoundsFiles(tifPaths, names, skipExisting, city, envs));
      && r.Written?
      && r.doc.coordinates == RingJson(Corners(WebmapConverter.ConvertedExtent(envs[0], city)))
      && (forall i :: 0 <= i < |names| ==> JStr(TifFilename.Parse(names[i]).value.pollutant) in r.doc.pollutants.info)
      && (forall p :: p in r.doc.pollutants.info ==> p.JStr? && r.doc.pollutants.info[p] == ScaleInfo(p.str))
  {
    var files := ConvertedBoundsFiles(tifPaths, names, skipExisting, city, envs);
    var extents := seq(|names|, i requires 0 <= i < |names| => WebmapConverter.ConvertedExtent(envs[i], city));
    var keys := seq(|names|, i requires 0 <= i < |names| => TifFilename.Parse(names[i]).value);
    var clips := seq(|names|, i requires 0 <= i < |names| => WebmapConverter.ClippedTo(envs[i], city));
    assert files == ConverterFiles(extents, keys, clips);
    ConsolidatingConverterOutput(cityName, year, extents, keys, clips);
    var r := ConsolidateCityYear(cityName, year, files);
    forall i | 0 <= i < |names| ensures JStr(TifFilename.Parse(names[i]).value.pollutant) in r.doc.pollutants.info {
      assert keys[i] == TifFilename.Parse(names[i]).value;
    }
  }

  /** The properties of a converter bounds file as the table loop reads them. */
  lemma ConverterDocFacts(extent: Box, k: TifFilename.TifKey, clip: string)
    ensures var f := WebmapConverter.BoundsDocument(extent, k, clip);
      && FirstProperties(f).Some?
      && PollutantOf(f) == Some(JStr(k.pollutant))
      && "vmin" in FirstProperties(f).value && "vmax" in FirstProperties(f).value
      && InfoOf(FirstProperties(f).value) == ScaleInfo(k.pollutant)
  {
  }

  /** Every pollutant of the table maps to its converter scale. */
  predicate ScaledTable(t: Table)
  {
    forall p :: p in t.info ==> p.JStr? && t.info[p] == ScaleInfo(p.str)
  }

  /** The table built from converter output: never raises, one entry per
      pollutant, holding that pollutant's scale. */
  lemma {:induction false} ConverterTable(extents: seq<Box>, keys: seq<TifFilename.TifKey>, clips: seq<string>)
    requires |extents| == |keys| == |clips|
    ensures var t := TableOf(ConverterFiles(extents, keys, clips));
      && t.Some?
      && (forall i :: 0 <= i < |keys| ==> JStr(keys[i].pollutant) in t.value.info)
      && ScaledTable(t.value)
  {
    var files := ConverterFiles(extents, keys, clips);
    ConverterTableScaled(extents, keys, clips);
    TableKeys(files);
    forall i | 0 <= i < |keys| ensures JStr(keys[i].pollutant) in TableOf(files).value.info {
      ConverterDocFacts(extents[i], keys[i], clips[i]);
    }
  }

  /** The induction behind ConverterTable: every step succeeds and keeps the table scaled. */
  lemma {:induction false} ConverterTableScaled(extents: seq<Box>, keys: seq<TifFilename.TifKey>, clips: seq<string>)
    requires |extents| == |keys| == |clips|
    ensures var t := TableOf(ConverterFiles(extents, keys, clips));
      t.Some? && ScaledTable(t.value)
  {
    if keys != [] {
      var n := |keys| - 1;
      var files := ConverterFiles(extents, keys, clips);
      assert files[..n] == ConverterFiles(extents[..n], keys[..n], clips[..n]);
      ConverterTableScaled(extents[..n], keys[..n], clips[..n]);
      var t0 := TableOf(files[..n]).value;
      ConverterTableStep(t0, extents[n], keys[n], clips[n]);
    }
  }

  /** One converter bounds file is read without error and keeps a scaled table scaled. */
  lemma ConverterTableStep(t0: Table, extent: Box, k: TifFilename.TifKey, clip: string)
    requires ScaledTable(t0)
    ensures var next := TableStep(t0, WebmapConverter.BoundsDocument(extent, k, clip));
      next.Some? && ScaledTable(next.value)
  {
    var f := WebmapConverter.BoundsDocument(extent, k, clip);
    ConverterDocFacts(extent, k, clip);
    assert TableStep(t0, f).Some?;
    TableStepFacts(t0, f);
    var t := TableStep(t0, f).value;
    forall p | p in t.info ensures p.JStr? && t.info[p] == ScaleInfo(p.str) {
      if p !in t0.info {
        assert p == JStr(k.pollutant);
      }
    }
  }

  // ---------------------------------------------------------------------------
  // Deleting old bounds files and PNG images
  // ---------------------------------------------------------------------------

  /** The unlink loop of both deletion passes: every name the glob matches is
      removed and counted, the others stay in listing order. */
  method RemoveMatching(dir: seq<string>, matches: string -> bool, keeps: string -> bool)
    returns (remaining: seq<string>, removed: nat)
    requires forall n :: keeps(n) <==> !matches(n)
    ensures remaining == Filter(dir, keeps) && removed == |Filter(dir, matches)|
    ensures |remaining| + removed == |dir|
  {
    remaining, removed := [], 0;
    var i := 0;
    while i < |dir|
      invariant 0 <= i <= |dir|
      invariant remaining == Filter(dir[..i], keeps)
      invariant removed == |Filter(dir[..i], matches)|
      invariant |remaining| + removed == i
    {
      assert dir[..i + 1] == dir[..i] + [dir[i]];
      FilterPush(dir[..i], dir[i], keeps);
      FilterPush(dir[..i], dir[i], matches);
      if matches(dir[i]) {
        removed := removed + 1;
      } else {
        remaining := remaining + [dir[i]];
      }
      i := i + 1;
    }
    assert dir[..i] == dir;
  }

  /** `glob("*_bounds.geojson")` */
  predicate IsOldBounds(name: string) { EndsWith(name, "_bounds.geojson") }

  /** The names delete_old_bounds_files leaves in place. */
  predicate KeepsBounds(name: string) { !IsOldBounds(name) }

  /** What delete_old_bounds_files leaves in one directory. */
  function BoundsKept(dir: seq<string>): seq<string>
  {
    if "bounds.json" in dir then Filter(dir, KeepsBounds) else dir
  }

  /** delete_old_bounds_files for one directory: the per-month bounds files go
      only when `bounds.json` is present. */
  method DeleteOldBoundsFiles(dir: seq<string>) returns (remaining: seq<string>, deleted: nat)
    ensures remaining == BoundsKept(dir) && deleted == |dir| - |remaining|
    ensures "bounds.json" !in dir ==> remaining == dir && deleted == 0
    ensures "bounds.json" in dir ==>
      remaining == Filter(dir, KeepsBounds) && deleted == |Filter(dir, IsOldBounds)|
    ensures "bounds.json" in dir ==> "bounds.json" in remaining
    ensures forall n :: n in remaining <==> n in dir && !("bounds.json" in dir && IsOldBounds(n))
  {
    if "bounds.json" !in dir {
      return dir, 0;
    }
    assert !IsOldBounds("bounds.json");
    remaining, deleted := RemoveMatching(dir, IsOldBounds, KeepsBounds);
    FilterMembers(dir, KeepsBounds);
  }

  /** `Path.with_suffix('.webp')`: the last suffix replaced, or `.webp` appended
      to a name such as `.png` that has no suffix. */
  function WebpName(png: string): string
    requires EndsWith(png, ".png")
  {
    if |png| == 4 then png + ".webp" else png[..|png| - 4] + ".webp"
  }

  /** The WebP twin of a converter image is its name with `.webp`, and it is never itself a PNG. */
  lemma WebpOfConverterImage(pollutant: string, month: string)
    ensures EndsWith(WebmapConverter.PngName(pollutant, month), ".png")
    ensures WebpName(WebmapConverter.PngName(pollutant, month)) == pollutant + "_month" + month + "_inferno.webp"
    ensures !EndsWith(WebpName(WebmapConverter.PngName(pollutant, month)), ".png")
  {
    var png := WebmapConverter.PngName(pollutant, month);
    assert png[|png| - 4..] == ".png";
    assert png[..|png| - 4] == pollutant + "_month" + month + "_inferno";
    WebpNotPng(png);
  }

  /** A PNG goes when the directory has its WebP twin. */
  predicate PngDeleted(dir: seq<string>, name: string)
  {
    EndsWith(name, ".png") && WebpName(name) in dir
  }

  /** The names of a directory that delete_png_files keeps. */
  function PngKeeps(dir: seq<string>): string -> bool
  {
    n => !PngDeleted(dir, n)
  }

  /** What delete_png_files leaves in one directory, in listing order. */
  function PngKept(dir: seq<string>): seq<string>
  {
    Filter(dir, PngKeeps(dir))
  }

  /** delete_png_files for one directory. */
  method DeletePngFiles(dir: seq<string>) returns (remaining: seq<string>, deleted: nat)
    ensures remaining == PngKept(dir)
    ensures forall n :: n in remaining <==> n in dir && !PngDeleted(dir, n)
    ensures forall n :: n in dir && EndsWith(n, ".png") && n !in remaining ==> WebpName(n) in remaining
    ensures deleted == |dir| - |remaining|
  {
    remaining, deleted := [], 0;
    var i := 0;
    while i < |dir|
      invariant 0 <= i <= |dir|
      invariant remaining == Filter(dir[..i], PngKeeps(dir))
      invariant forall n :: n in remaining <==> n in dir[..i] && !PngDeleted(dir, n)
      invariant deleted + |remaining| == i
    {
      assert dir[..i + 1] == dir[..i] + [dir[i]];
      FilterPush(dir[..i], dir[i], PngKeeps(dir));
      if EndsWith(dir[i], ".png") && WebpName(dir[i]) in dir {
        deleted := deleted + 1;
      } else {
        remaining := remaining + [dir[i]];
      }
      i := i + 1;
    }
    assert dir[..i] == dir;
    forall n | n in dir && EndsWith(n, ".png") && n !in remaining ensures WebpName(n) in remaining {
      WebpNotPng(n);
    }
  }

  lemma WebpNotPng(png: string)
    requires EndsWith(png, ".png")
    ensures !EndsWith(WebpName(png), ".png")
  {
    var w := WebpName(png);
    assert w[|w| - 4] == 'w';
  }

  // ---------------------------------------------------------------------------
  // The city and year loops
  // ---------------------------------------------------------------------------

  /** A `predicted/<city>/<year>` directory. */
  datatype CityYear = CityYear(city: string, year: string)

  /** The visits of `for year in years` inside one city. */
  function YearVisits(city: string, years: seq<string>): seq<CityYear>
  {
    seq(|years|, j requires 0 <= j < |years| => CityYear(city, years[j]))
  }

  /** The directories `for city in cities: for year in years` visits, in order;
      each pair of a city and a year is visited. */
  function Visits(cities: seq<string>, years: seq<string>): (v: seq<CityYear>)
    ensures forall cy :: cy in v <==> cy.city in cities && cy.year in years
  {
    if cities == [] then []
    else
      var city := cities[|cities| - 1];
      assert forall cy: CityYear :: cy in YearVisits(city, years) <==> cy.city == city && cy.year in years by {
        forall cy: CityYear | cy.city == city && cy.year in years ensures cy in YearVisits(city, years) {
          var j :| 0 <= j < |years| && years[j] == cy.year;
          assert YearVisits(city, years)[j] == cy;
        }
      }
      Visits(cities[..|cities| - 1], years) + YearVisits(city, years)
  }

  predicate Distinct<T(==)>(s: seq<T>) { forall i, j :: 0 <= i < j < |s| ==> s[i] != s[j] }

  /** With no city and no year repeated, no directory is visited twice. */
  lemma {:induction false} VisitsDistinct(cities: seq<string>, years: seq<string>)
    requires Distinct(cities) && Distinct(years)
    ensures Distinct(Visits(cities, years))
  {
    if cities != [] {
      var front := cities[..|cities| - 1];
      var city := cities[|cities| - 1];
      VisitsDistinct(front, years);
      var a := Visits(front, years);
      var b := YearVisits(city, years);
      forall i, j | 0 <= i < j < |a + b| ensures (a + b)[i] != (a + b)[j] {
        if j < |a| {
          assert (a + b)[i] == a[i] && (a + b)[j] == a[j];
        } else if i < |a| {
          assert (a + b)[i] == a[i] && a[i] in a;
        } else {
          assert (a + b)[i] == b[i - |a|] && (a + b)[j] == b[j - |a|];
        }
      }
    }
  }

  /** The three cities and two years every pass walks through. */
  lemma CityYearsDistinct()
    ensures Distinct(Cities) && Distinct(Years) && Distinct(Visits(Cities, Years))
  {
    VisitsDistinct(Cities, Years);
  }

  /** consolidate_bounds_files so far: the `bounds.json` documents written, and
      whether a raise has ended the script. */
  datatype BoundsPass = BoundsPass(written: map<CityYear, ConsolidatedBounds>, raised: bool)

  /** One directory of consolidate_bounds_files: nothing happens once the
      script has raised, for a missing directory or for one without bounds
      files; otherwise it raises or writes `bounds.json`. */
  function BoundsStep(dirs: map<CityYear, seq<BoundsFile>>, acc: BoundsPass, cy: CityYear): BoundsPass
  {
    if acc.raised || cy !in dirs then acc
    else match ConsolidateCityYear(cy.city, cy.year, dirs[cy])
      case NoBoundsFiles => acc
      case Raised => BoundsPass(acc.written, true)
      case Written(doc) => BoundsPass(acc.written[cy := doc], false)
  }

  function BoundsPassOver(dirs: map<CityYear, seq<BoundsFile>>, visits: seq<CityYear>): BoundsPass
  {
    if visits == [] then BoundsPass(map[], false)
    else BoundsStep(dirs, BoundsPassOver(dirs, visits[..|visits| - 1]), visits[|visits| - 1])
  }

  /** The consolidation of one directory raised. */
  predicate RaisesAt(dirs: map<CityYear, seq<BoundsFile>>, cy: CityYear)
  {
    cy in dirs && ConsolidateCityYear(cy.city, cy.year, dirs[cy]) == Raised
  }

  /** The consolidation of one directory writes a document. */
  predicate WritesAt(dirs: map<CityYear, seq<BoundsFile>>, cy: CityYear)
  {
    cy in dirs && ConsolidateCityYear(cy.city, cy.year, dirs[cy]).Written?
  }

  /** Every written document is the consolidation of a visited directory. */
  predicate WrittenSound(dirs: map<CityYear, seq<BoundsFile>>, visits: seq<CityYear>,
                         written: map<CityYear, ConsolidatedBounds>)
  {
    forall cy :: cy in written ==>
      cy in visits && cy in dirs && ConsolidateCityYear(cy.city, cy.year, dirs[cy]) == Written(written[cy])
  }

  /** The pass writes only consolidations of visited directories and raises
      exactly when some visited directory raises; without a raise it writes
      every visited directory whose consolidation succeeds. */
  lemma {:induction false} BoundsPassFacts(dirs: map<CityYear, seq<BoundsFile>>, visits: seq<CityYear>)
    ensures var p := BoundsPassOver(dirs, visits);
      && WrittenSound(dirs, visits, p.written)
      && (p.raised <==> exists cy :: cy in visits && RaisesAt(dirs, cy))
      && (!p.raised ==> forall cy :: cy in visits && WritesAt(dirs, cy) ==> cy in p.written)
  {
    if visits != [] {
      var front := visits[..|visits| - 1];
      var cy := visits[|visits| - 1];
      BoundsPassFacts(dirs, front);
      assert forall c :: c in visits <==> c in front || c == cy by {
        assert visits == front + [cy];
      }
    }
  }

  /** consolidate_bounds_files: the nested loops over the fixed cities and years. */
  method ConsolidateBoundsFiles(dirs: map<CityYear, seq<BoundsFile>>)
    returns (written: map<CityYear, ConsolidatedBounds>, raised: bool)
    ensures BoundsPass(written, raised) == BoundsPassOver(dirs, Visits(Cities, Years))
  {
    written, raised := ConsolidateOver(dirs, Cities, Years);
  }

  method ConsolidateOver(dirs: map<CityYear, seq<BoundsFile>>, cities: seq<string>, years: seq<string>)
    returns (written: map<CityYear, ConsolidatedBounds>, raised: bool)
    ensures BoundsPass(written, raised) == BoundsPassOver(dirs, Visits(cities, years))
  {
    written, raised := map[], false;
    var ci := 0;
    while ci < |cities|
      invariant 0 <= ci <= |cities|
      invariant BoundsPass(written, raised) == BoundsPassOver(dirs, Visits(cities[..ci], years))
    {
      var city := cities[ci];
      var done := Visits(cities[..ci], years);
      assert done + YearVisits(city, years[..0]) == done;
      var yi := 0;
      while yi < |years|
        invariant 0 <= yi <= |years|
        invariant BoundsPass(written, raised) == BoundsPassOver(dirs, done + YearVisits(city, years[..yi]))
      {
        var cy := CityYear(city, years[yi]);
        VisitsPush(done, city, years, yi);
        BoundsPassPush(dirs, done + YearVisits(city, years[..yi]), cy);
        if !raised && cy in dirs {
          var r := ConsolidateCityYear(city, years[yi], dirs[cy]);
          if r.Raised? {
            raised := true;
          } else if r.Written? {
            written := written[cy := r.doc];
          }
        }
        yi := yi + 1;
      }
      assert years[..yi] == years;
      VisitsNext(cities, years, ci);
      ci := ci + 1;
    }
    assert cities[..ci] == cities;
  }

  lemma BoundsPassPush(dirs: map<CityYear, seq<BoundsFile>>, visits: seq<CityYear>, cy: CityYear)
    ensures BoundsPassOver(dirs, visits + [cy]) == BoundsStep(dirs, BoundsPassOver(dirs, visits), cy)
  {
    assert (visits + [cy])[..|visits|] == visits;
  }

  /** One more year appends one visit. */
  lemma VisitsPush(before: seq<CityYear>, city: string, years: seq<string>, yi: nat)
    requires yi < |years|
    ensures before + YearVisits(city, years[..yi + 1]) == (before + YearVisits(city, years[..yi])) + [CityYear(city, years[yi])]
  {
  }

  /** One more city appends its year visits. */
  lemma VisitsNext(cities: seq<string>, years: seq<string>, ci: nat)
    requires ci < |cities|
    ensures Visits(cities[..ci + 1], years) == Visits(cities[..ci], years) + YearVisits(cities[ci], years)
  {
    assert cities[..ci + 1][..ci] == cities[..ci];
  }

  /** A deletion pass so far: the directory listings and the running count. */
  datatype Sweep = Sweep(dirs: map<CityYear, seq<string>>, deleted: int)

  /** One directory of a deletion pass, re-listed as it is now. */
  function SweepStep(acc: Sweep, cy: CityYear, pass: seq<string> -> seq<string>): Sweep
  {
    if cy !in acc.dirs then acc
    else Sweep(acc.dirs[cy := pass(acc.dirs[cy])], acc.deleted + (|acc.dirs[cy]| - |pass(acc.dirs[cy])|))
  }

  function SweepOver(dirs: map<CityYear, seq<string>>, visits: seq<CityYear>, pass: seq<string> -> seq<string>): Sweep
  {
    if visits == [] then Sweep(dirs, 0)
    else SweepStep(SweepOver(dirs, visits[..|visits| - 1], pass), visits[|visits| - 1], pass)
  }

  /** When no directory is visited twice, every visited directory that exists
      holds what the pass leaves in it, every other one is untouched, no
      directory appears or disappears, and the count is what went. */
  lemma {:induction false} SweepFacts(dirs: map<CityYear, seq<string>>, visits: seq<CityYear>,
                                      pass: seq<string> -> seq<string>)
    requires Distinct(visits)
    ensures var r := SweepOver(dirs, visits, pass);
      && r.dirs.Keys == dirs.Keys
      && (forall cy :: cy in dirs ==> r.dirs[cy] == if cy in visits then pass(dirs[cy]) else dirs[cy])
      && ((forall x :: |pass(x)| <= |x|) ==> r.deleted >= 0)
  {
    if visits != [] {
      var front := visits[..|visits| - 1];
      var cy := visits[|visits| - 1];
      assert Distinct(front);
      SweepFacts(dirs, front, pass);
      assert forall c :: c in visits <==> c in front || c == cy by {
        assert visits == front + [cy];
      }
    }
  }

  lemma SweepPush(dirs: map<CityYear, seq<string>>, visits: seq<CityYear>, cy: CityYear,
                  pass: seq<string> -> seq<string>)
    ensures SweepOver(dirs, visits + [cy], pass) == SweepStep(SweepOver(dirs, visits, pass), cy, pass)
  {
    assert (visits + [cy])[..|visits|] == visits;
  }

  /** delete_old_bounds_files: the nested loops over the fixed cities and years. */
  method DeleteAllOldBoundsFiles(dirs: map<CityYear, seq<string>>) returns (after: map<CityYear, seq<string>>, deleted: int)
    ensures Sweep(after, deleted) == SweepOver(dirs, Visits(Cities, Years), BoundsKept)
  {
    after, deleted := DeleteOldBoundsOver(dirs, Cities, Years);
  }

  method DeleteOldBoundsOver(dirs: map<CityYear, seq<string>>, cities: seq<string>, years: seq<string>)
    returns (after: map<CityYear, seq<string>>, deleted: int)
    ensures Sweep(after, deleted) == SweepOver(dirs, Visits(cities, years), BoundsKept)
  {
    after, deleted := dirs, 0;
    var ci := 0;
    while ci < |cities|
      invariant 0 <= ci <= |cities|
      invariant Sweep(after, deleted) == SweepOver(dirs, Visits(cities[..ci], years), BoundsKept)
    {
      var city := cities[ci];
      var done := Visits(cities[..ci], years);
      assert done + YearVisits(city, years[..0]) == done;
      var yi := 0;
      while yi < |years|
        invariant 0 <= yi <= |years|
        invariant Sweep(after, deleted) == SweepOver(dirs, done + YearVisits(city, years[..yi]), BoundsKept)
      {
        var cy := CityYear(city, years[yi]);
        VisitsPush(done, city, years, yi);
        SweepPush(dirs, done + YearVisits(city, years[..yi]), cy, BoundsKept);
        if cy in after {
          var remaining, n := DeleteOldBoundsFiles(after[cy]);
          after, deleted := after[cy := remaining], deleted + n;
        }
        yi := yi + 1;
      }
      assert years[..yi] == years;
      VisitsNext(cities, years, ci);
      ci := ci + 1;
    }
    assert cities[..ci] == cities;
  }

  /** delete_png_files: the nested loops over the fixed cities and years. */
  method DeleteAllPngFiles(dirs: map<CityYear, seq<string>>) returns (after: map<CityYear, seq<string>>, deleted: int)
    ensures Sweep(after, deleted) == SweepOver(dirs, Visits(Cities, Years), PngKept)
  {
    after, deleted := DeletePngOver(dirs, Cities, Years);
  }

  method DeletePngOver(dirs: map<CityYear, seq<string>>, cities: seq<string>, years: seq<string>)
    returns (after: map<CityYear, seq<string>>, deleted: int)
    ensures Sweep(after, deleted) == SweepOver(dirs, Visits(cities, years), PngKept)
  {
    after, deleted := dirs, 0;
    var ci := 0;
    while ci < |cities|
      invariant 0 <= ci <= |cities|
      invariant Sweep(after, deleted) == SweepOver(dirs, Visits(cities[..ci], years), PngKept)
    {
      var city := cities[ci];
      var done := Visits(cities[..ci], years);
      assert done + YearVisits(city, years[..0]) == done;
      var yi := 0;
      while yi < |years|
        invariant 0 <= yi <= |years|
        invariant Sweep(after, deleted) == SweepOver(dirs, done + YearVisits(city, years[..yi]), PngKept)
      {
        var cy := CityYear(city, years[yi]);
        VisitsPush(done, city, years, yi);
        SweepPush(dirs, done + YearVisits(city, years[..yi]), cy, PngKept);
        if cy in after {
          var remaining, n := DeletePngFiles(after[cy]);
          after, deleted := after[cy := remaining], deleted + n;
        }
        yi := yi + 1;
      }
      assert years[..yi] == years;
      VisitsNext(cities, years, ci);
      ci := ci + 1;
    }
    assert cities[..ci] == cities;
  }

  // ---------------------------------------------------------------------------
  // Station files
  // ---------------------------------------------------------------------------

  /** `glob("stations_*.geojson")` */
  predicate IsStationFile(name: string)
  {
    |name| >= 17 && StartsWith(name, "stations_") && EndsWith(name, ".geojson")
  }

  /** `Path.stem` of a station file: the name without `.geojson`. */
  function Stem(name: string): string
    requires IsStationFile(name)
  {
    name[..|name| - 8]
  }

  /** The pollutant of a station file: PM2.5 for either spelling, otherwise the
      second `_`-separated part; `None` where `parts[1]` raises. */
  function PollutantFromStem(stem: string): (r: Option<string>)
    ensures Contains(stem, "PM2.5") || Contains(stem, "PM2_5") ==> r == Some("PM2.5")
    ensures !(Contains(stem, "PM2.5") || Contains(stem, "PM2_5")) ==>
      (r.Some? <==> |Split(stem, '_')| >= 2) && (r.Some? ==> r.value == Split(stem, '_')[1])
  {
    if Contains(stem, "PM2.5") || Contains(stem, "PM2_5") then Some("PM2.5")
    else
      var parts := Split(stem, '_');
      if |parts| >= 2 then Some(parts[1]) else None
  }

  /** The pollutant read back from the name the station writer gives a group is
      that group's pollutant in file-name form, when the name mentions no PM2.5;
      PM2_5 groups come back as PM2.5 either way. */
  lemma StemOfWrittenFile(pollutant: string, periodKey: string)
    ensures IsStationFile(StationsGeojson.FileNameFor(pollutant, periodKey))
    ensures var name := StationsGeojson.FileNameFor(pollutant, periodKey);
      var stem := Stem(name);
      && (!(Contains(stem, "PM2.5") || Contains(stem, "PM2_5")) ==>
            PollutantFromStem(stem) == Some(StationsGeojson.PollutantToFilename(pollutant)))
      && (pollutant == "PM2_5" ==> PollutantFromStem(stem) == Some("PM2.5"))
  {
    var q := StationsGeojson.PollutantToFilename(pollutant);
    var y, m := StationsGeojson.PeriodYear(periodKey), StationsGeojson.PeriodMonth(periodKey);
    var stem := Stem(StationsGeojson.FileNameFor(pollutant, periodKey));
    WrittenStem(q, y, m);
    assert q + "_" + y + "_" + m == q + ['_'] + (y + "_" + m);
    assert stem == "stations" + ['_'] + (q + ['_'] + (y + "_" + m));
    SecondPieceOfStem(q, y + "_" + m);
    assert Split(stem, '_')[1] == q;
    if pollutant == "PM2_5" {
      StationsGeojson.PollutantToFilenameCases(pollutant, "");
      StemMentionsPollutant(q, y + "_" + m);
    }
  }

  /** The second `_`-separated piece of `stations_<q>_<rest>` is `q` itself. */
  lemma SecondPieceOfStem(q: string, rest: string)
    requires '_' !in q
    ensures Split("stations" + ['_'] + (q + ['_'] + rest), '_') == ["stations", q] + Split(rest, '_')
  {
    SplitAfterPiece("stations", '_', q + ['_'] + rest);
    SplitAfterPiece(q, '_', rest);
  }

  /** A stem `stations_PM2.5_...` mentions PM2.5. */
  lemma StemMentionsPollutant(q: string, rest: string)
    requires q == "PM2.5"
    ensures Contains("stations" + ['_'] + (q + ['_'] + rest), "PM2.5")
  {
    var stem := "stations" + ['_'] + (q + ['_'] + rest);
    assert stem[9..14] == "PM2.5";
    assert OccursAt(stem, "PM2.5", 9);
  }

  /** A written station file is picked up, and its stem is `stations_` followed
      by the pollutant, year and month joined by `_`. */
  lemma WrittenStem(q: string, y: string, m: string)
    ensures IsStationFile(StationsGeojson.StationsFilename(q, y, m))
    ensures Stem(StationsGeojson.StationsFilename(q, y, m)) == "stations" + ['_'] + (q + "_" + y + "_" + m)
  {
    var name := StationsGeojson.StationsFilename(q, y, m);
    assert name == "stations_" + (q + "_" + y + "_" + m) + ".geojson";
    assert name[..9] == "stations_";
    assert name[|name| - 8..] == ".geojson";
    assert name[..|name| - 8] == "stations_" + (q + "_" + y + "_" + m);
  }

  /** Station file names grouped by pollutant, in order of first appearance. */
  datatype Groups = Groups(order: seq<string>, files: map<string, seq<string>>)

  function GroupStep(g: Groups, name: string): Option<Groups>
    requires IsStationFile(name)
  {
    match PollutantFromStem(Stem(name))
    case None => None
    case Some(p) =>
      if p in g.files then Some(Groups(g.order, g.files[p := g.files[p] + [name]]))
      else Some(Groups(g.order + [p], g.files[p := [name]]))
  }

  function GroupsOf(names: seq<string>): Option<Groups>
    requires forall i :: 0 <= i < |names| ==> IsStationFile(names[i])
  {
    if names == [] then Some(Groups([], map[]))
    else
      match GroupsOf(names[..|names| - 1])
      case None => None
      case Some(g) => GroupStep(g, names[|names| - 1])
  }

  /** The grouping loop of consolidate_station_files. */
  method GroupStationFiles(names: seq<string>) returns (r: Option<Groups>)
    requires forall i :: 0 <= i < |names| ==> IsStationFile(names[i])
    ensures r == GroupsOf(names)
  {
    var g := Groups([], map[]);
    var i := 0;
    while i < |names|
      invariant 0 <= i <= |names|
      invariant GroupsOf(names[..i]) == Some(g)
    {
      assert names[..i + 1][..i] == names[..i];
      var next := GroupStep(g, names[i]);
      if next.None? {
        GroupsNoneStays(names, i + 1);
        return None;
      }
      g := next.value;
      i := i + 1;
    }
    assert names[..i] == names;
    return Some(g);
  }

  lemma {:induction false} GroupsNoneStays(names: seq<string>, i: nat)
    requires forall k :: 0 <= k < |names| ==> IsStationFile(names[k])
    requires i <= |names| && GroupsOf(names[..i]).None?
    ensures GroupsOf(names).None?
    decreases |names| - i
  {
    if i < |names| {
      assert names[..i + 1][..i] == names[..i];
      GroupsNoneStays(names, i + 1);
    } else {
      assert names[..i] == names;
    }
  }

  function TotalLength(g: Groups, ps: seq<string>): nat
    requires forall p :: p in ps ==> p in g.files
  {
    if ps == [] then 0 else TotalLength(g, ps[..|ps| - 1]) + |g.files[ps[|ps| - 1]]|
  }

  lemma GroupStepFacts(g: Groups, name: string)
    requires IsStationFile(name) && GroupStep(g, name).Some?
    ensures var g2 := GroupStep(g, name).value;
      var p := PollutantFromStem(Stem(name)).value;
      && PollutantFromStem(Stem(name)).Some?
      && (forall q :: q in g2.files <==> q in g.files || q == p)
      && g2.files[p] == (if p in g.files then g.files[p] else []) + [name]
      && (forall q :: q in g.files && q != p ==> g2.files[q] == g.files[q])
      && g2.order == (if p in g.files then g.order else g.order + [p])
  {
  }

  /** The group keys are exactly the order, listed once each. */
  lemma {:induction false} GroupsKeys(names: seq<string>)
    requires forall i :: 0 <= i < |names| ==> IsStationFile(names[i])
    requires GroupsOf(names).Some?
    ensures var g := GroupsOf(names).value;
      && (forall p :: p in g.files <==> p in g.order)
      && (forall a, b :: 0 <= a < b < |g.order| ==> g.order[a] != g.order[b])
  {
    if names != [] {
      var n := |names| - 1;
      GroupsKeys(names[..n]);
      var g0 := GroupsOf(names[..n]).value;
      var g := GroupsOf(names).value;
      GroupStepFacts(g0, names[n]);
      var p := PollutantFromStem(Stem(names[n])).value;
      if p !in g0.files {
        assert forall x :: x in g.order <==> x in g0.order || x == p;
        assert p !in g0.order;
      }
    }
  }

  /** Every listed file sits in the group of its own pollutant. */
  predicate CoversFiles(g: Groups, names: seq<string>)
  {
    forall i :: 0 <= i < |names| ==>
      && IsStationFile(names[i])
      && PollutantFromStem(Stem(names[i])).Some?
      && PollutantFromStem(Stem(names[i])).value in g.files
      && names[i] in g.files[PollutantFromStem(Stem(names[i])).value]
  }

  /** Grouping puts every file in the group of its own pollutant. */
  lemma {:induction false} GroupsCover(names: seq<string>)
    requires forall i :: 0 <= i < |names| ==> IsStationFile(names[i])
    requires GroupsOf(names).Some?
    ensures CoversFiles(GroupsOf(names).value, names)
  {
    if names != [] {
      var n := |names| - 1;
      var prefix := names[..n];
      GroupsCover(prefix);
      CoverStep(GroupsOf(prefix).value, prefix, names[n]);
      assert prefix + [names[n]] == names;
    }
  }

  /** Adding a station file to its pollutant's group keeps every earlier file in place. */
  lemma CoverStep(g0: Groups, prefix: seq<string>, name: string)
    requires IsStationFile(name) && GroupStep(g0, name).Some? && CoversFiles(g0, prefix)
    ensures CoversFiles(GroupStep(g0, name).value, prefix + [name])
  {
    GroupStepFacts(g0, name);
    var g := GroupStep(g0, name).value;
    var pn := PollutantFromStem(Stem(name)).value;
    var names := prefix + [name];
    assert name in g.files[pn];
    forall i | 0 <= i < |names|
      ensures IsStationFile(names[i])
           && PollutantFromStem(Stem(names[i])).Some?
           && PollutantFromStem(Stem(names[i])).value in g.files
           && names[i] in g.files[PollutantFromStem(Stem(names[i])).value]
    {
      if i < |prefix| {
        assert names[i] == prefix[i];
        var q := PollutantFromStem(Stem(prefix[i])).value;
        assert q in g0.files && names[i] in g0.files[q];
        if q == pn {
          assert g.files[q] == g0.files[q] + [name];
        } else {
          assert g.files[q] == g0.files[q];
        }
      }
    }
  }

  /** Every group holds only listed files of its own pollutant. */
  predicate OnlyOwnFiles(g: Groups, names: seq<string>)
  {
    forall p, x :: p in g.files && x in g.files[p] ==>
      x in names && IsStationFile(x) && PollutantFromStem(Stem(x)) == Some(p)
  }

  /** A group holds only files of its own pollutant. */
  lemma {:induction false} GroupsOnlyOwn(names: seq<string>)
    requires forall i :: 0 <= i < |names| ==> IsStationFile(names[i])
    requires GroupsOf(names).Some?
    ensures OnlyOwnFiles(GroupsOf(names).value, names)
  {
    if names != [] {
      var n := |names| - 1;
      var prefix := names[..n];
      GroupsOnlyOwn(prefix);
      OnlyOwnStep(GroupsOf(prefix).value, prefix, names[n]);
      assert prefix + [names[n]] == names;
    }
  }

  /** Adding a station file to its pollutant's group keeps every group pure. */
  lemma OnlyOwnStep(g0: Groups, prefix: seq<string>, name: string)
    requires IsStationFile(name) && GroupStep(g0, name).Some? && OnlyOwnFiles(g0, prefix)
    ensures OnlyOwnFiles(GroupStep(g0, name).value, prefix + [name])
  {
    GroupStepFacts(g0, name);
    var g := GroupStep(g0, name).value;
    var pn := PollutantFromStem(Stem(name)).value;
    forall p, x | p in g.files && x in g.files[p]
      ensures x in prefix + [name] && IsStationFile(x) && PollutantFromStem(Stem(x)) == Some(p)
    {
      if p == pn && x == name {
      } else {
        if p == pn {
          assert p in g0.files && g.files[p] == g0.files[p] + [name];
        } else {
          assert p in g0.files && g.files[p] == g0.files[p];
        }
        assert x in g0.files[p];
      }
    }
  }

  /** The groups together hold as many entries as there were files. */
  lemma {:induction false} GroupsTotal(names: seq<string>)
    requires forall i :: 0 <= i < |names| ==> IsStationFile(names[i])
    requires GroupsOf(names).Some?
    ensures forall p :: p in GroupsOf(names).value.order ==> p in GroupsOf(names).value.files
    ensures TotalLength(GroupsOf(names).value, GroupsOf(names).value.order) == |names|
  {
    GroupsKeys(names);
    if names != [] {
      var n := |names| - 1;
      var prefix := names[..n];
      GroupsTotal(prefix);
      GroupsKeys(prefix);
      var g0 := GroupsOf(prefix).value;
      var g := GroupsOf(names).value;
      var p := PollutantFromStem(Stem(names[n])).value;
      GroupStepFacts(g0, names[n]);
      if p in g0.files {
        TotalLengthBump(g0, g0.order, p, names[n]);
      } else {
        TotalLengthFresh(g0, g0.order, p, names[n]);
      }
    }
  }

  lemma {:induction false} TotalLengthBump(g: Groups, ps: seq<string>, p: string, name: string)
    requires forall q :: q in ps ==> q in g.files
    requires p in g.files && p in ps
    requires forall a, b :: 0 <= a < b < |ps| ==> ps[a] != ps[b]
    ensures TotalLength(Groups(g.order, g.files[p := g.files[p] + [name]]), ps) == TotalLength(g, ps) + 1
  {
    var g2 := Groups(g.order, g.files[p := g.files[p] + [name]]);
    var n := |ps| - 1;
    if ps[n] == p {
      assert p !in ps[..n];
      TotalLengthSame(g, g2, ps[..n]);
    } else {
      assert p in ps[..n];
      TotalLengthBump(g, ps[..n], p, name);
    }
  }

  lemma {:induction false} TotalLengthFresh(g: Groups, ps: seq<string>, p: string, name: string)
    requires forall q :: q in ps ==> q in g.files
    requires p !in g.files
    ensures TotalLength(Groups(g.order + [p], g.files[p := [name]]), ps + [p]) == TotalLength(g, ps) + 1
  {
    var g2 := Groups(g.order + [p], g.files[p := [name]]);
    assert (ps + [p])[..|ps|] == ps;
    assert p !in ps;
    TotalLengthSame(g, g2, ps);
  }

  /** Totals over pollutants whose groups did not change are unchanged. */
  lemma {:induction false} TotalLengthSame(g: Groups, g2: Groups, ps: seq<string>)
    requires forall q :: q in ps ==> q in g.files && q in g2.files && g.files[q] == g2.files[q]
    ensures TotalLength(g, ps) == TotalLength(g2, ps)
  {
    if ps != [] {
      TotalLengthSame(g, g2, ps[..|ps| - 1]);
    }
  }

  function Concat(contents: seq<seq<Feature>>): (all: seq<Feature>)
  {
    if contents == [] then [] else Concat(contents[..|contents| - 1]) + contents[|contents| - 1]
  }

  function SumLengths(contents: seq<seq<Feature>>): nat
  {
    if contents == [] then 0 else SumLengths(contents[..|contents| - 1]) + |contents[|contents| - 1]|
  }

  /** Concatenating two runs of files is concatenating their concatenations. */
  lemma {:induction false} ConcatAppend(a: seq<seq<Feature>>, b: seq<seq<Feature>>)
    ensures Concat(a + b) == Concat(a) + Concat(b)
  {
    if b == [] {
      assert a + b == a;
    } else {
      var n := |b| - 1;
      var ab := a + b;
      assert ab[..|ab| - 1] == a + b[..n];
      assert ab[|ab| - 1] == b[n];
      assert Concat(ab) == Concat(a + b[..n]) + b[n];
      ConcatAppend(a, b[..n]);
      assert Concat(b) == Concat(b[..n]) + b[n];
    }
  }

  /** The consolidated file has as many features as its sources together. */
  lemma {:induction false} ConcatLength(contents: seq<seq<Feature>>)
    ensures |Concat(contents)| == SumLengths(contents)
  {
    if contents != [] {
      ConcatLength(contents[..|contents| - 1]);
    }
  }

  /** The features of file `k` sit between those of the files before and after
      it: source order is kept. */
  lemma {:induction false} ConcatLayout(contents: seq<seq<Feature>>, k: nat)
    requires k < |contents|
    ensures Concat(contents) == Concat(contents[..k]) + contents[k] + Concat(contents[k + 1..])
  {
    var a, x, b := contents[..k], contents[k], contents[k + 1..];
    assert contents == a + ([x] + b);
    ConcatAppend(a, [x] + b);
    ConcatAppend([x], b);
    assert [x][..0] == [];
    assert Concat([x]) == x;
  }

  /** The `extend` loop over one pollutant's files. */
  method ConcatFeatures(contents: seq<seq<Feature>>) returns (all: seq<Feature>)
    ensures all == Concat(contents)
    ensures |all| == SumLengths(contents)
  {
    all := [];
    var i := 0;
    while i < |contents|
      invariant 0 <= i <= |contents|
      invariant all == Concat(contents[..i])
    {
      assert contents[..i + 1][..i] == contents[..i];
      all := all + contents[i];
      i := i + 1;
    }
    assert contents[..i] == contents;
    ConcatLength(contents);
  }

  /** `f"stations_{pollutant}.geojson"` in the parent directory. */
  function ConsolidatedStationsName(pollutant: string): string
  {
    "stations_" + pollutant + ".geojson"
  }

  /** Distinct pollutants get distinct consolidated files. */
  lemma ConsolidatedNamesInjective(p: string, q: string)
    ensures ConsolidatedStationsName(p) == ConsolidatedStationsName(q) <==> p == q
  {
    var a, b := ConsolidatedStationsName(p), ConsolidatedStationsName(q);
    if a == b {
      assert |p| == |q|;
      assert p == a[9..9 + |p|] && q == b[9..9 + |q|];
    }
  }

  /** The decoded feature lists of a run of station files. */
  function GroupContents(files: seq<string>, contents: map<string, seq<Feature>>): (r: seq<seq<Feature>>)
    requires forall x :: x in files ==> x in contents
    ensures |r| == |files| && forall i :: 0 <= i < |files| ==> r[i] == contents[files[i]]
  {
    seq(|files|, i requires 0 <= i < |files| => contents[files[i]])
  }

  /** Every grouped file is one of the listed files, whose contents were read. */
  lemma {:induction false} GroupFilesHaveContents(names: seq<string>, contents: map<string, seq<Feature>>)
    requires forall i :: 0 <= i < |names| ==> IsStationFile(names[i]) && names[i] in contents
    requires GroupsOf(names).Some?
    ensures forall p :: p in GroupsOf(names).value.files ==> forall x :: x in GroupsOf(names).value.files[p] ==> x in contents
  {
    GroupsOnlyOwn(names);
    forall p, x | p in GroupsOf(names).value.files && x in GroupsOf(names).value.files[p] ensures x in contents {
      assert x in names;
      var i :| 0 <= i < |names| && names[i] == x;
    }
  }

  /** Every file of every group was read. */
  predicate GroupsRead(g: Groups, contents: map<string, seq<Feature>>)
  {
    forall p :: p in g.files ==> forall x :: x in g.files[p] ==> x in contents
  }

  /** The consolidated files of the pollutants `done`: each holds the chained
      features of its group and their number. */
  predicate WrittenFor(out: map<string, seq<Feature>>, done: seq<string>, g: Groups, contents: map<string, seq<Feature>>)
    requires GroupsRead(g, contents)
  {
    forall p :: p in done ==>
      && p in g.files
      && ConsolidatedStationsName(p) in out
      && out[ConsolidatedStationsName(p)] == Concat(GroupContents(g.files[p], contents))
      && |out[ConsolidatedStationsName(p)]| == SumLengths(GroupContents(g.files[p], contents))
  }

  /** Only the consolidated files of the pollutants `done` exist. */
  predicate OnlyNamesOf(out: map<string, seq<Feature>>, done: seq<string>)
  {
    forall n :: n in out ==> exists q :: q in done && n == ConsolidatedStationsName(q)
  }

  /** Writing the file of a pollutant not yet done keeps the files already
      written and adds its own. */
  lemma WrittenStep(out: map<string, seq<Feature>>, done: seq<string>, p: string, all: seq<Feature>,
                    g: Groups, contents: map<string, seq<Feature>>)
    requires GroupsRead(g, contents) && p in g.files && p !in done
    requires WrittenFor(out, done, g, contents) && OnlyNamesOf(out, done)
    requires all == Concat(GroupContents(g.files[p], contents))
    requires |all| == SumLengths(GroupContents(g.files[p], contents))
    ensures WrittenFor(out[ConsolidatedStationsName(p) := all], done + [p], g, contents)
    ensures OnlyNamesOf(out[ConsolidatedStationsName(p) := all], done + [p])
  {
    var out2 := out[ConsolidatedStationsName(p) := all];
    forall q | q in done ensures ConsolidatedStationsName(q) != ConsolidatedStationsName(p) {
      ConsolidatedNamesInjective(q, p);
    }
    forall n | n in out2 ensures exists q :: q in done + [p] && n == ConsolidatedStationsName(q) {
      if n != ConsolidatedStationsName(p) {
        var q :| q in done && n == ConsolidatedStationsName(q);
        assert q in done + [p];
      } else {
        assert p in done + [p];
      }
    }
  }

  /** Once every pollutant of the order is done, each group has its file and no
      other file exists. */
  lemma WrittenForAll(out: map<string, seq<Feature>>, g: Groups, contents: map<string, seq<Feature>>)
    requires GroupsRead(g, contents) && forall p :: p in g.files <==> p in g.order
    requires WrittenFor(out, g.order, g, contents) && OnlyNamesOf(out, g.order)
    ensures forall p :: p in g.files ==>
      && ConsolidatedStationsName(p) in out
      && out[ConsolidatedStationsName(p)] == Concat(GroupContents(g.files[p], contents))
      && |out[ConsolidatedStationsName(p)]| == SumLengths(GroupContents(g.files[p], contents))
    ensures forall n :: n in out ==> exists p :: p in g.files && n == ConsolidatedStationsName(p)
  {
  }

  /** The writing loop: one consolidated file per pollutant of the order, each
      holding the chained features of its group, and no other file. */
  method WriteConsolidated(g: Groups, contents: map<string, seq<Feature>>) returns (out: map<string, seq<Feature>>)
    requires GroupsRead(g, contents) && forall p :: p in g.order ==> p in g.files
    requires forall a, b :: 0 <= a < b < |g.order| ==> g.order[a] != g.order[b]
    ensures WrittenFor(out, g.order, g, contents) && OnlyNamesOf(out, g.order)
  {
    out := map[];
    var i := 0;
    while i < |g.order|
      invariant 0 <= i <= |g.order|
      invariant WrittenFor(out, g.order[..i], g, contents)
      invariant OnlyNamesOf(out, g.order[..i])
    {
      var p := g.order[i];
      var all := ConcatFeatures(GroupContents(g.files[p], contents));
      assert p !in g.order[..i];
      WrittenStep(out, g.order[..i], p, all, g, contents);
      out := out[ConsolidatedStationsName(p) := all];
      assert g.order[..i + 1] == g.order[..i] + [p];
      i := i + 1;
    }
    assert g.order[..i] == g.order;
  }

  /** consolidate_station_files: the files grouped by pollutant, then one
      consolidated file per pollutant holding the concatenated features of its
      group, and no other file; `None` where grouping raises. */
  method ConsolidateStationFiles(names: seq<string>, contents: map<string, seq<Feature>>)
    returns (r: Option<map<string, seq<Feature>>>)
    requires forall i :: 0 <= i < |names| ==> IsStationFile(names[i]) && names[i] in contents
    ensures r.None? <==> GroupsOf(names).None?
    ensures r.Some? ==>
      var g := GroupsOf(names).value;
      && (forall p :: p in g.files ==> forall x :: x in g.files[p] ==> x in contents)
      && (forall p :: p in g.files ==>
            && ConsolidatedStationsName(p) in r.value
            && r.value[ConsolidatedStationsName(p)] == Concat(GroupContents(g.files[p], contents))
            && |r.value[ConsolidatedStationsName(p)]| == SumLengths(GroupContents(g.files[p], contents)))
      && (forall n :: n in r.value ==> exists p :: p in g.files && n == ConsolidatedStationsName(p))
  {
    var grouped := GroupStationFiles(names);
    if grouped.None? {
      return None;
    }
    var g := grouped.value;
    GroupsKeys(names);
    GroupFilesHaveContents(names, contents);
    var out := WriteConsolidated(g, contents);
    WrittenForAll(out, g, contents);
    return Some(out);
  }

  /** The names delete_old_station_files leaves in place. */
  predicate KeepsStations(name: string) { !IsStationFile(name) }

  /** delete_old_station_files: when the parent directory holds a consolidated
      file, every per-month station file goes, and the directory itself when
      nothing else is left in it. `dirRemoved` means that no station directory
      remains: an empty listing also stands for a directory that is already
      gone, where the source's `exists()` test makes it do nothing. */
  method DeleteOldStationFiles(parent: seq<string>, stationsDir: seq<string>)
    returns (remaining: seq<string>, deleted: nat, dirRemoved: bool)
    ensures Filter(parent, IsStationFile) == [] ==> remaining == stationsDir && deleted == 0 && !dirRemoved
    ensures Filter(parent, IsStationFile) != [] ==>
      && remaining == Filter(stationsDir, KeepsStations)
      && deleted == |Filter(stationsDir, IsStationFile)|
      && (dirRemoved <==> remaining == [])
    ensures dirRemoved ==> exists n :: n in parent && IsStationFile(n)
  {
    var consolidated := Filter(parent, IsStationFile);
    if consolidated == [] {
      return stationsDir, 0, false;
    }
    FilterMembers(parent, IsStationFile);
    assert consolidated[0] in parent && IsStationFile(consolidated[0]);
    remaining, deleted := RemoveMatching(stationsDir, IsStationFile, KeepsStations);
    dirRemoved := remaining == [];
  }
}
