/** The prediction raster file name `YYYY_MM_POLLUTANT_interpolated.tif`: the
    parser `parse_tif_filename` (identical in the web-map converter and in the
    station extractor) and the formatter the station extractor uses to find a
    raster for a (year, month, pollutant). */
module TifFilename {
  import opened Common

  const Suffix: string := "_interpolated.tif"

  /** The three captured groups, kept as the strings the regular expression returns. */
  datatype TifKey = TifKey(year: string, month: string, pollutant: string)

  /** What the groups `(\d{4})`, `(\d{2})` and `([A-Za-z0-9_]+)` can capture. */
  predicate ValidKey(k: TifKey)
  {
    && |k.year| == 4 && AllDigits(k.year)
    && |k.month| == 2 && AllDigits(k.month)
    && |k.pollutant| >= 1 && AllWordChars(k.pollutant)
  }

  /** `f"{year}_{month}_{pollutant}_interpolated.tif"` */
  function Format(k: TifKey): string
  {
    k.year + "_" + k.month + "_" + k.pollutant + Suffix
  }

  /** The pattern matched against the whole string. The pollutant group is greedy
      but must leave the literal suffix, so it is exactly what lies between the
      second underscore and `_interpolated.tif`. */
  function MatchWhole(s: string): Option<TifKey>
  {
    if && |s| >= 9 + |Suffix|
       && AllDigits(s[..4]) && s[4] == '_'
       && AllDigits(s[5..7]) && s[7] == '_'
       && s[|s| - |Suffix|..] == Suffix
       && AllWordChars(s[8..|s| - |Suffix|])
    then Some(TifKey(s[..4], s[5..7], s[8..|s| - |Suffix|]))
    else None
  }

  /** `re.match(pattern, filename)` with the pattern ending in `$`, which in Python
      also matches just before a final newline. On no match the source returns
      `(None, None, None)`, here `None`. */
  function Parse(name: string): (r: Option<TifKey>)
    ensures r.Some? ==> ValidKey(r.value)
    ensures r.Some? ==> name == Format(r.value) || name == Format(r.value) + "\n"
  {
    match MatchWhole(name)
    case Some(k) =>
      assert name == name[..4] + "_" + name[5..7] + "_" + name[8..|name| - |Suffix|] + Suffix;
      Some(k)
    case None =>
      if |name| > 0 && name[|name| - 1] == '\n' then
        var body := name[..|name| - 1];
        match MatchWhole(body)
        case Some(k) =>
          assert body == body[..4] + "_" + body[5..7] + "_" + body[8..|body| - |Suffix|] + Suffix;
          assert name == body + "\n";
          Some(k)
        case None => None
      else None
  }

  /** Parsing a formatted name gives back its year, month and pollutant, also for
      pollutants that contain underscores such as `PM2_5`. */
  lemma RoundTrip(k: TifKey)
    requires ValidKey(k)
    ensures Parse(Format(k)) == Some(k)
  {
    var s := Format(k);
    assert s[..4] == k.year && s[5..7] == k.month;
    assert s[|s| - |Suffix|..] == Suffix;
    assert s[8..|s| - |Suffix|] == k.pollutant;
  }

  /** The end anchor's newline allowance: the name followed by "\n" parses too. */
  lemma RoundTripTrailingNewline(k: TifKey)
    requires ValidKey(k)
    ensures Parse(Format(k) + "\n") == Some(k)
  {
    var name := Format(k) + "\n";
    assert name[|name| - |Suffix|..] != Suffix by {
      assert name[|name| - 1] == '\n';
    }
    assert name[..|name| - 1] == Format(k);
    RoundTrip(k);
  }

  /** Names that are not of the form yield no key (the converter then reports failure). */
  lemma RejectsOtherNames(name: string)
    requires forall k :: ValidKey(k) ==> name != Format(k) && name != Format(k) + "\n"
    ensures Parse(name) == None
  {
  }
}
