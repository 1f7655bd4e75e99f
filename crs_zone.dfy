/** Recovering a UTM zone and hemisphere from a coordinate reference system
    string. The web-map converter tries an EPSG code `EPSG:326ZZ` / `EPSG:327ZZ`
    first and then a `UTM zone <n><N|S>` phrase; the station extractor knows
    only the phrase. Both searches are `re.search(..., re.IGNORECASE)`: the
    leftmost match anywhere in the string wins. */
module CrsZone {
  import opened Common

  datatype Zone = Zone(number: nat, northern: bool)

  /** The two patterns searched for. */
  datatype Pattern = EpsgPattern | UtmPattern

  predicate MatchesAt(p: Pattern, s: string, i: nat)
  {
    match p
    case EpsgPattern => EpsgAt(s, i)
    case UtmPattern => UtmAt(s, i)
  }

  /** `re.search`: the first position at or after `from` where the pattern matches. */
  function FindFirst(p: Pattern, s: string, from: nat): (r: Option<nat>)
    requires from <= |s|
    ensures r.Some? ==> from <= r.value < |s| && MatchesAt(p, s, r.value)
    ensures r.Some? ==> forall j: nat :: from <= j < r.value ==> !MatchesAt(p, s, j)
    ensures r.None? ==> forall j: nat :: from <= j < |s| ==> !MatchesAt(p, s, j)
    decreases |s| - from
  {
    if from == |s| then None
    else if MatchesAt(p, s, from) then Some(from)
    else FindFirst(p, s, from + 1)
  }

  // ---------------------------------------------------------------------------
  // EPSG:32([67])(\d{2})
  // ---------------------------------------------------------------------------

  const EpsgPrefix: string := "EPSG:32"

  predicate EpsgAt(s: string, i: nat)
  {
    && i + 10 <= |s|
    && EqualsIgnoreCase(s[i..i + 7], EpsgPrefix)
    && (s[i + 7] == '6' || s[i + 7] == '7')
    && IsDigit(s[i + 8]) && IsDigit(s[i + 9])
  }

  /** Hemisphere digit 6 is north, 7 south; the zone is the two digits after it. */
  function EpsgZone(s: string, i: nat): Zone
    requires EpsgAt(s, i)
  {
    Zone(DigitsValue(s[i + 8..i + 10]), s[i + 7] == '6')
  }

  predicate NoEpsg(s: string) { forall i: nat | i < |s| :: !MatchesAt(EpsgPattern, s, i) }

  predicate FirstEpsg(s: string, i: nat) { EpsgAt(s, i) && forall j: nat :: j < i ==> !MatchesAt(EpsgPattern, s, j) }

  // ---------------------------------------------------------------------------
  // UTM zone (\d+)([NS])
  // ---------------------------------------------------------------------------

  const UtmPrefix: string := "UTM zone "

  /** Length of the run of digits starting at `j`. */
  function DigitRun(s: string, j: nat): (k: nat)
    requires j <= |s|
    ensures j + k <= |s| && AllDigits(s[j..j + k])
    ensures j + k == |s| || !IsDigit(s[j + k])
    decreases |s| - j
  {
    if j == |s| || !IsDigit(s[j]) then 0
    else
      var k := 1 + DigitRun(s, j + 1);
      assert s[j..j + k] == [s[j]] + s[j + 1..j + k];
      k
  }

  /** `\d+` is greedy and `[NS]` is not a digit, so the only way to match is the
      whole run of digits followed by N or S (either case). */
  predicate UtmAt(s: string, i: nat)
  {
    && i + 9 <= |s|
    && EqualsIgnoreCase(s[i..i + 9], UtmPrefix)
    && var k := DigitRun(s, i + 9);
       k >= 1 && i + 9 + k < |s| && AsciiLower(s[i + 9 + k]) in {'n', 's'}
  }

  /** `northern = match.group(2).upper() == 'N'` */
  function UtmZone(s: string, i: nat): Zone
    requires UtmAt(s, i)
  {
    var k := DigitRun(s, i + 9);
    Zone(DigitsValue(s[i + 9..i + 9 + k]), AsciiLower(s[i + 9 + k]) == 'n')
  }

  predicate NoUtm(s: string) { forall i: nat | i < |s| :: !MatchesAt(UtmPattern, s, i) }

  predicate FirstUtm(s: string, i: nat) { UtmAt(s, i) && forall j: nat :: j < i ==> !MatchesAt(UtmPattern, s, j) }

  // ---------------------------------------------------------------------------
  // The two variants of extract_utm_zone
  // ---------------------------------------------------------------------------

  /** Station extractor's variant: the phrase only. */
  function ExtractUtmZonePhrase(crs: string): (r: Option<Zone>)
    ensures r.Some? ==> exists i :: FirstUtm(crs, i) && r.value == UtmZone(crs, i)
    ensures r.None? <==> NoUtm(crs)
  {
    match FindFirst(UtmPattern, crs, 0)
    case Some(i) => assert FirstUtm(crs, i); Some(UtmZone(crs, i))
    case None => None
  }

  /** Web-map converter's variant: an EPSG code first, then the phrase. */
  function ExtractUtmZone(crs: string): (r: Option<Zone>)
    ensures r.Some? ==>
      || (exists i :: FirstEpsg(crs, i) && r.value == EpsgZone(crs, i))
      || (NoEpsg(crs) && exists i :: FirstUtm(crs, i) && r.value == UtmZone(crs, i))
    ensures !NoEpsg(crs) ==> r.Some? && exists i :: FirstEpsg(crs, i) && r.value == EpsgZone(crs, i)
    ensures r.None? <==> NoEpsg(crs) && NoUtm(crs)
  {
    match FindFirst(EpsgPattern, crs, 0)
    case Some(i) => assert FirstEpsg(crs, i); Some(EpsgZone(crs, i))
    case None => ExtractUtmZonePhrase(crs)
  }

  /** The Python callers test `if zone:`, so a zone number 0 counts as no zone. */
  predicate ZoneUsable(z: Option<Zone>) { z.Some? && z.value.number != 0 }

  // ---------------------------------------------------------------------------
  // Properties
  // ---------------------------------------------------------------------------

  /** The two-digit EPSG code of a UTM zone: 326ZZ north, 327ZZ south. */
  function EpsgCode(z: nat, northern: bool): string
    requires z < 100
  {
    EpsgPrefix + (if northern then "6" else "7")
      + [('0' as int + z / 10) as char, ('0' as int + z % 10) as char]
  }

  /** A string in which some letter of a pattern's prefix never occurs cannot match it. */
  lemma NoEpsgWithoutP(s: string)
    requires forall i :: 0 <= i < |s| ==> AsciiLower(s[i]) != 'p'
    ensures NoEpsg(s)
  {
    forall i: nat | i < |s| ensures !EpsgAt(s, i) {
      if i + 10 <= |s| {
        assert s[i..i + 7][1] == s[i + 1] && AsciiLower(s[i + 1]) != 'p';
      }
    }
  }

  lemma NoUtmWithoutU(s: string)
    requires forall i :: 0 <= i < |s| ==> AsciiLower(s[i]) != 'u'
    ensures NoUtm(s)
  {
    forall i: nat | i < |s| ensures !UtmAt(s, i) {
      if i + 9 <= |s| {
        assert s[i..i + 9][0] == s[i] && AsciiLower(s[i]) != 'u';
      }
    }
  }

  /** The converter reads back the zone and hemisphere of an EPSG code; the station
      extractor does not recognise it at all. */
  lemma {:induction false} EpsgCodeRoundTrip(z: nat, northern: bool)
    requires z < 100
    ensures ExtractUtmZone(EpsgCode(z, northern)) == Some(Zone(z, northern))
    ensures ExtractUtmZonePhrase(EpsgCode(z, northern)) == None
  {
    var s := EpsgCode(z, northern);
    assert EqualsIgnoreCase(s[0..7], EpsgPrefix) by { assert s[0..7] == EpsgPrefix; }
    assert EpsgAt(s, 0);
    assert FirstEpsg(s, 0);
    assert s[8..10] == [s[8], s[9]];
    assert DigitsValue(s[8..10]) == 10 * (z / 10) + z % 10 by {
      assert s[8..10][..1] == [s[8]];
    }
    NoUtmWithoutU(s);
  }

  /** The phrase `UTM zone <n><N|S>` gives zone n and the hemisphere of the
      letter, in either variant (for the converter because it carries no EPSG code). */
  function UtmPhrase(z: nat, northern: bool): string
  {
    UtmPrefix + NatToString(z) + (if northern then "N" else "S")
  }

  lemma {:induction false} UtmPhraseRoundTrip(z: nat, northern: bool)
    ensures ExtractUtmZonePhrase(UtmPhrase(z, northern)) == Some(Zone(z, northern))
    ensures ExtractUtmZone(UtmPhrase(z, northern)) == Some(Zone(z, northern))
  {
    var s := UtmPhrase(z, northern);
    UtmPhraseMatchesAtStart(z, northern);
    assert FindFirst(UtmPattern, s, 0) == Some(0);
    UtmPhraseHasNoP(z, northern);
    NoEpsgWithoutP(s);
  }

  lemma UtmPhraseMatchesAtStart(z: nat, northern: bool)
    ensures UtmAt(UtmPhrase(z, northern), 0)
    ensures UtmZone(UtmPhrase(z, northern), 0) == Zone(z, northern)
  {
    var s := UtmPhrase(z, northern);
    var d := NatToString(z);
    assert s[..9] == UtmPrefix;
    assert s[9..9 + |d|] == d;
    assert s[9 + |d|] == (if northern then 'N' else 'S');
    DigitRunOf(s, 9, |d|);
  }

  lemma UtmPhraseHasNoP(z: nat, northern: bool)
    ensures forall i :: 0 <= i < |UtmPhrase(z, northern)| ==> AsciiLower(UtmPhrase(z, northern)[i]) != 'p'
  {
    var s := UtmPhrase(z, northern);
    var d := NatToString(z);
    forall i | 0 <= i < |s| ensures AsciiLower(s[i]) != 'p' {
      if i < 9 {
        assert s[i] == UtmPrefix[i];
      } else if i < 9 + |d| {
        assert s[i] == d[i - 9];
        assert IsDigit(d[i - 9]);
      } else {
        assert s[i] == (if northern then 'N' else 'S');
      }
    }
  }

  lemma DigitRunOf(s: string, j: nat, k: nat)
    requires j + k <= |s| && AllDigits(s[j..j + k])
    requires j + k == |s| || !IsDigit(s[j + k])
    ensures DigitRun(s, j) == k
    decreases k
  {
    if k > 0 {
      assert IsDigit(s[j..j + k][0]);
      assert s[j + 1..j + k] == s[j..j + k][1..];
      DigitRunOf(s, j + 1, k - 1);
    }
  }

  /** Whenever a string carries both forms, the converter takes the leftmost
      EPSG code, wherever the phrase stands, and the station extractor the
      leftmost phrase; the two disagree exactly when code and phrase name
      different zones or hemispheres. */
  lemma EpsgBeforePhrase(s: string, i: nat, j: nat)
    requires FirstEpsg(s, i) && FirstUtm(s, j)
    ensures ExtractUtmZone(s) == Some(EpsgZone(s, i))
    ensures ExtractUtmZonePhrase(s) == Some(UtmZone(s, j))
    ensures ExtractUtmZone(s) != ExtractUtmZonePhrase(s) <==> EpsgZone(s, i) != UtmZone(s, j)
  {
    FirstMatchFound(EpsgPattern, s, i);
    FirstMatchFound(UtmPattern, s, j);
  }

  /** An instance: `UTM zone 32N EPSG:32733` is zone 33 south for the converter
      and zone 32 north for the station extractor. */
  lemma EpsgBeforePhraseExample(s: string)
    requires s == "UTM zone 32N EPSG:32733"
    ensures ExtractUtmZone(s) == Some(Zone(33, false))
    ensures ExtractUtmZonePhrase(s) == Some(Zone(32, true))
  {
    MixedStringEpsg(s);
    MixedStringPhrase(s);
    EpsgBeforePhrase(s, 13, 0);
  }

  lemma MixedStringEpsg(s: string)
    requires s == "UTM zone 32N EPSG:32733"
    ensures FirstEpsg(s, 13) && EpsgZone(s, 13) == Zone(33, false)
  {
    assert s[13..20] == EpsgPrefix;
    assert EpsgAt(s, 13);
    forall j: nat | j < 13 ensures !MatchesAt(EpsgPattern, s, j) {
      assert s[j..j + 7][1] == s[j + 1];
      assert AsciiLower(s[j + 1]) != 'p';
    }
    assert s[21..23] == "33" && s[21..23][..1] == "3";
  }

  lemma MixedStringPhrase(s: string)
    requires s == "UTM zone 32N EPSG:32733"
    ensures FirstUtm(s, 0) && UtmZone(s, 0) == Zone(32, true)
  {
    assert s[..9] == UtmPrefix;
    assert s[9..11] == "32" && s[9..11][..1] == "3";
    assert AllDigits(s[9..11]) && s[11] == 'N';
    DigitRunOf(s, 9, 2);
    assert UtmAt(s, 0);
  }

  /** The search returns the leftmost match. */
  lemma FirstMatchFound(p: Pattern, s: string, i: nat)
    requires MatchesAt(p, s, i) && forall j: nat :: j < i ==> !MatchesAt(p, s, j)
    ensures FindFirst(p, s, 0) == Some(i)
  {
  }
}
