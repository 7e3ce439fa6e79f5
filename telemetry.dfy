/**
 * `parse_dji_gps_data`: the four regular-expression searches over one
 * subtitle's text and the `float()` conversions of what they capture.
 */
module Telemetry {
  import opened Wrappers
  import opened Numerals

  /** Python's `\s` on a `str` pattern: ASCII and Unicode white space. */
  predicate IsSpace(c: char)
  {
    var n := c as int;
    (9 <= n <= 13) || (28 <= n <= 32) || n == 0x85 || n == 0xA0 || n == 0x1680
    || (0x2000 <= n <= 0x200A) || n == 0x2028 || n == 0x2029 || n == 0x202F || n == 0x205F || n == 0x3000
  }

  /** The character class `[-\d.]`. */
  predicate IsNumberChar(c: char) { c == '-' || c == '.' || IsDigit(c) }

  /** The end of the run of white space that starts at `i` (`\s*`, greedy). */
  function SkipSpaces(s: string, i: nat): (k: nat)
    requires i <= |s|
    ensures i <= k <= |s| && (k < |s| ==> !IsSpace(s[k]))
    ensures forall j :: i <= j < k ==> IsSpace(s[j])
    decreases |s| - i
  {
    if i < |s| && IsSpace(s[i]) then SkipSpaces(s, i + 1) else i
  }

  /** The end of the run of `[-\d.]` that starts at `i` (`[-\d.]+`, greedy). */
  function SkipNumber(s: string, i: nat): (k: nat)
    requires i <= |s|
    ensures i <= k <= |s| && (k < |s| ==> !IsNumberChar(s[k]))
    ensures forall j :: i <= j < k ==> IsNumberChar(s[j])
    decreases |s| - i
  {
    if i < |s| && IsNumberChar(s[i]) then SkipNumber(s, i + 1) else i
  }

  /**
   * One of the four patterns: a literal `key`, then `\s*([-\d.]+)`, then a
   * literal `]` when `closed`.
   */
  datatype Pattern = Pattern(key: string, closed: bool)

  /** `\[latitude:\s*([-\d.]+)\]` */
  const LatitudePattern := Pattern("[latitude:", true)
  /** `\[longitude:\s*([-\d.]+)\]` */
  const LongitudePattern := Pattern("[longitude:", true)
  /** `\[rel_alt:\s*([-\d.]+)` */
  const RelAltPattern := Pattern("[rel_alt:", false)
  /** `abs_alt:\s*([-\d.]+)\]` */
  const AbsAltPattern := Pattern("abs_alt:", true)

  /**
   * The group `p` captures when matched at position `i`, if it matches there.
   * The quantifiers are greedy and backtracking cannot help them: white space
   * is not in `[-\d.]`, and a shorter number is followed by a number
   * character, never by `]`.
   */
  function MatchAt(s: string, i: nat, p: Pattern): Option<string>
    requires i <= |s|
  {
    if i + |p.key| <= |s| && s[i..i + |p.key|] == p.key then
      var j := SkipSpaces(s, i + |p.key|);
      var k := SkipNumber(s, j);
      if j < k && (!p.closed || (k < |s| && s[k] == ']')) then Some(s[j..k]) else None
    else None
  }

  /** The leftmost position at or after `from` where `p` matches: `re.search`. */
  function FirstMatch(s: string, p: Pattern, from: nat): (r: Option<nat>)
    requires from <= |s|
    ensures r.Some? ==> from <= r.value <= |s| && MatchAt(s, r.value, p).Some?
    ensures r.Some? ==> forall j :: from <= j < r.value ==> MatchAt(s, j, p).None?
    ensures r.None? ==> forall j :: from <= j <= |s| ==> MatchAt(s, j, p).None?
    decreases |s| - from
  {
    if MatchAt(s, from, p).Some? then Some(from)
    else if from == |s| then None
    else FirstMatch(s, p, from + 1)
  }

  /** `m.group(1)` of `re.search(p, s)`, or `None` when there is no match. */
  function Search(s: string, p: Pattern): (r: Option<string>)
    ensures r.Some? <==> exists i :: 0 <= i <= |s| && MatchAt(s, i, p).Some?
    ensures r.Some? ==> r.value != [] && forall j :: 0 <= j < |r.value| ==> IsNumberChar(r.value[j])
  {
    match FirstMatch(s, p, 0)
    case Some(i) => MatchAt(s, i, p)
    case None => None
  }

  /** The four values the function returns, in its order (lat, lon, abs_alt, rel_alt). */
  datatype GpsFix = GpsFix(lat: real, lon: real, absAlt: real, relAlt: Option<real>)

  /**
   * `parse_dji_gps_data`: `None` unless latitude, longitude and abs_alt are
   * all found and every captured token (rel_alt included) converts.
   */
  function ParseGps(text: string): Option<GpsFix>
  {
    var lat, lon := Search(text, LatitudePattern), Search(text, LongitudePattern);
    var relAlt, absAlt := Search(text, RelAltPattern), Search(text, AbsAltPattern);
    if lat.Some? && lon.Some? && absAlt.Some? then
      var latV, lonV, absV := ParseDecimal(lat.value), ParseDecimal(lon.value), ParseDecimal(absAlt.value);
      var relV := if relAlt.Some? then ParseDecimal(relAlt.value) else None;
      if latV.Some? && lonV.Some? && absV.Some? && (relAlt.Some? ==> relV.Some?) then
        Some(GpsFix(latV.value, lonV.value, absV.value, relV))
      else None
    else None
  }
}

module TelemetryFacts {
  import opened Wrappers
  import opened Numerals
  import opened Telemetry

  /** `p` matches at `i` and nowhere before it: `re.search` reports the match at `i`. */
  predicate FirstMatchIs(s: string, p: Pattern, i: nat)
  {
    i <= |s| && MatchAt(s, i, p).Some? && NoneBetween(s, p, 0, i)
  }

  /**
   * What `parse_dji_gps_data` makes of the leftmost match, at `i`, of one of
   * its four patterns: when the captured token does not convert there is no
   * fix; otherwise the fix's field for that pattern is the converted token.
   */
  lemma ParseGpsFirstMatch(text: string, p: Pattern, i: nat)
    requires p == LatitudePattern || p == LongitudePattern || p == AbsAltPattern || p == RelAltPattern
    requires FirstMatchIs(text, p, i)
    ensures var v := ParseDecimal(MatchAt(text, i, p).value); var g := ParseGps(text);
      (v.None? ==> g.None?)
      && (g.Some? && p == LatitudePattern ==> v == Some(g.value.lat))
      && (g.Some? && p == LongitudePattern ==> v == Some(g.value.lon))
      && (g.Some? && p == AbsAltPattern ==> v == Some(g.value.absAlt))
      && (g.Some? && p == RelAltPattern ==> g.value.relAlt == v)
  {
    SearchFindsAt(text, p, i, MatchAt(text, i, p).value);
  }

  /**
   * Without a latitude, longitude or abs_alt match anywhere there is no fix;
   * without a rel_alt match a fix has no relative altitude.
   */
  lemma ParseGpsNeedsKeys(text: string)
    ensures (forall i :: 0 <= i <= |text| ==> MatchAt(text, i, LatitudePattern).None?) ==> ParseGps(text).None?
    ensures (forall i :: 0 <= i <= |text| ==> MatchAt(text, i, LongitudePattern).None?) ==> ParseGps(text).None?
    ensures (forall i :: 0 <= i <= |text| ==> MatchAt(text, i, AbsAltPattern).None?) ==> ParseGps(text).None?
    ensures (forall i :: 0 <= i <= |text| ==> MatchAt(text, i, RelAltPattern).None?)
            ==> ParseGps(text).Some? ==> ParseGps(text).value.relAlt.None?
  {
  }

  /**
   * The success path with rel_alt absent: latitude, longitude and abs_alt are
   * found and convert, and rel_alt matches nowhere, so the fix carries the
   * three converted tokens and no relative altitude.
   */
  lemma ParseGpsWithoutRelAlt(text: string, a: nat, b: nat, c: nat)
    requires FirstMatchIs(text, LatitudePattern, a)
    requires FirstMatchIs(text, LongitudePattern, b)
    requires FirstMatchIs(text, AbsAltPattern, c)
    requires ParseDecimal(MatchAt(text, a, LatitudePattern).value).Some?
    requires ParseDecimal(MatchAt(text, b, LongitudePattern).value).Some?
    requires ParseDecimal(MatchAt(text, c, AbsAltPattern).value).Some?
    requires forall i :: 0 <= i <= |text| ==> MatchAt(text, i, RelAltPattern).None?
    ensures ParseGps(text) == Some(GpsFix(ParseDecimal(MatchAt(text, a, LatitudePattern).value).value,
                                          ParseDecimal(MatchAt(text, b, LongitudePattern).value).value,
                                          ParseDecimal(MatchAt(text, c, AbsAltPattern).value).value,
                                          None))
  {
    SearchFindsAt(text, LatitudePattern, a, MatchAt(text, a, LatitudePattern).value);
    SearchFindsAt(text, LongitudePattern, b, MatchAt(text, b, LongitudePattern).value);
    SearchFindsAt(text, AbsAltPattern, c, MatchAt(text, c, AbsAltPattern).value);
  }

  /**
   * The success path with all four keys: when every leftmost match captures
   * a token that converts, the fix carries the four converted tokens.
   */
  lemma ParseGpsWithRelAlt(text: string, a: nat, b: nat, c: nat, d: nat)
    requires FirstMatchIs(text, LatitudePattern, a)
    requires FirstMatchIs(text, LongitudePattern, b)
    requires FirstMatchIs(text, AbsAltPattern, c)
    requires FirstMatchIs(text, RelAltPattern, d)
    requires ParseDecimal(MatchAt(text, a, LatitudePattern).value).Some?
    requires ParseDecimal(MatchAt(text, b, LongitudePattern).value).Some?
    requires ParseDecimal(MatchAt(text, c, AbsAltPattern).value).Some?
    requires ParseDecimal(MatchAt(text, d, RelAltPattern).value).Some?
    ensures ParseGps(text) == Some(GpsFix(ParseDecimal(MatchAt(text, a, LatitudePattern).value).value,
                                          ParseDecimal(MatchAt(text, b, LongitudePattern).value).value,
                                          ParseDecimal(MatchAt(text, c, AbsAltPattern).value).value,
                                          ParseDecimal(MatchAt(text, d, RelAltPattern).value)))
  {
    SearchFindsAt(text, LatitudePattern, a, MatchAt(text, a, LatitudePattern).value);
    SearchFindsAt(text, LongitudePattern, b, MatchAt(text, b, LongitudePattern).value);
    SearchFindsAt(text, AbsAltPattern, c, MatchAt(text, c, AbsAltPattern).value);
    SearchFindsAt(text, RelAltPattern, d, MatchAt(text, d, RelAltPattern).value);
  }

  /** A token made only of `[-\d.]` characters, as the patterns capture. */
  predicate IsNumberToken(t: string)
  {
    t != [] && forall j :: 0 <= j < |t| ==> IsNumberChar(t[j])
  }

  /** The telemetry part of a DJI subtitle, written out from four number tokens. */
  function Entry(lat: string, lon: string, relAlt: string, absAlt: string): string
  {
    "[latitude: " + lat + "] [longitude: " + lon + "] [rel_alt: " + relAlt + " abs_alt: " + absAlt + "]"
  }

  lemma {:induction false} SkipSpacesIs(s: string, i: nat, k: nat)
    requires i <= k <= |s| && (k < |s| ==> !IsSpace(s[k]))
    requires forall j :: i <= j < k ==> IsSpace(s[j])
    ensures SkipSpaces(s, i) == k
    decreases k - i
  {
    if i < k { SkipSpacesIs(s, i + 1, k); }
  }

  lemma {:induction false} SkipNumberIs(s: string, i: nat, k: nat)
    requires i <= k <= |s| && (k < |s| ==> !IsNumberChar(s[k]))
    requires forall j :: i <= j < k ==> IsNumberChar(s[j])
    ensures SkipNumber(s, i) == k
    decreases k - i
  {
    if i < k { SkipNumberIs(s, i + 1, k); }
  }

  /**
   * `lit` lies at `at` and ends with the key at `k` and one space; `tok`
   * follows, then a character that ends it: the pattern captures `tok`.
   */
  lemma MatchesToken(s: string, p: Pattern, at: nat, lit: string, k: nat, tok: string)
    requires IsNumberToken(tok)
    requires k + |p.key| + 1 == |lit| && lit[k..k + |p.key|] == p.key && lit[|lit| - 1] == ' '
    requires var t := at + |lit|;
      t + |tok| < |s| && s[at..t] == lit && s[t..t + |tok|] == tok
      && !IsNumberChar(s[t + |tok|]) && (p.closed ==> s[t + |tok|] == ']')
    ensures MatchAt(s, at + k, p) == Some(tok)
  {
    var i, t := at + k, at + |lit|;
    PieceOfPiece(s, at, lit, k, p.key);
    assert s[t - 1] == lit[|lit| - 1];
    TokenChars(s, t, tok);
    SkipSpacesIs(s, t - 1, t);
    SkipNumberIs(s, t, t + |tok|);
  }

  /** A piece of `lit` found in `s` where `lit` lies. */
  lemma PieceOfPiece(s: string, at: nat, lit: string, k: nat, piece: string)
    requires at + |lit| <= |s| && s[at..at + |lit|] == lit
    requires k + |piece| <= |lit| && lit[k..k + |piece|] == piece
    ensures s[at + k..at + k + |piece|] == piece
  {
    forall j | 0 <= j < |piece| ensures s[at + k + j] == piece[j] {
      assert s[at + k + j] == s[at..at + |lit|][k + j] == lit[k + j] == lit[k..k + |piece|][j];
    }
  }

  /** A number token found in `s` starts with no white space and is all number characters. */
  lemma TokenChars(s: string, t: nat, tok: string)
    requires IsNumberToken(tok) && t + |tok| <= |s| && s[t..t + |tok|] == tok
    ensures !IsSpace(s[t]) && forall j :: t <= j < t + |tok| ==> IsNumberChar(s[j])
  {
    assert s[t] == tok[0];
    forall j | t <= j < t + |tok| ensures IsNumberChar(s[j]) { assert s[j] == tok[j - t]; }
  }

  /** No match of `p` starts in `[lo, hi)`. */
  predicate NoneBetween(s: string, p: Pattern, lo: nat, hi: nat)
    requires hi <= |s|
  {
    forall j :: lo <= j < hi ==> MatchAt(s, j, p).None?
  }

  lemma NoneBetweenJoin(s: string, p: Pattern, lo: nat, mid: nat, hi: nat)
    requires lo <= mid <= hi <= |s| && NoneBetween(s, p, lo, mid) && NoneBetween(s, p, mid, hi)
    ensures NoneBetween(s, p, lo, hi)
  {
  }

  /** No match starts in `seg[lo..hi]` when none of those characters is the key's first. */
  lemma NoMatchIn(s: string, p: Pattern, at: nat, seg: string, lo: nat, hi: nat)
    requires p.key != [] && lo <= hi <= |seg| && at + |seg| <= |s| && s[at..at + |seg|] == seg
    requires forall j :: lo <= j < hi ==> seg[j] != p.key[0]
    ensures NoneBetween(s, p, at + lo, at + hi)
  {
    forall j | at + lo <= j < at + hi ensures MatchAt(s, j, p).None? {
      assert s[j] == seg[j - at];
    }
  }

  /** No match starts at `seg[k]` when its `m`-th character differs from the key's. */
  lemma NoMatchAt(s: string, p: Pattern, at: nat, seg: string, k: nat, m: nat)
    requires m < |p.key| && k + m < |seg| && at + |seg| <= |s| && s[at..at + |seg|] == seg
    requires seg[k + m] != p.key[m]
    ensures NoneBetween(s, p, at + k, at + k + 1)
  {
    assert s[at + k + m] == seg[k + m];
  }

  /** How the pieces of an entry lie in `s`. */
  predicate Laid(s: string, lat: string, lon: string, relAlt: string, absAlt: string)
  {
    var a, b, c, d := |lat|, |lon|, |relAlt|, |absAlt|;
    |s| == 48 + a + b + c + d
    && s[..11] == "[latitude: " && s[11..11 + a] == lat
    && s[11 + a..25 + a] == "] [longitude: " && s[25 + a..25 + a + b] == lon
    && s[25 + a + b..37 + a + b] == "] [rel_alt: " && s[37 + a + b..37 + a + b + c] == relAlt
    && s[37 + a + b + c..47 + a + b + c] == " abs_alt: " && s[47 + a + b + c..47 + a + b + c + d] == absAlt
    && s[47 + a + b + c + d] == ']'
  }

  lemma EntryLayout(lat: string, lon: string, relAlt: string, absAlt: string)
    ensures Laid(Entry(lat, lon, relAlt, absAlt), lat, lon, relAlt, absAlt)
  {
    EntryFront(lat, lon, relAlt, absAlt);
    EntryBack(lat, lon, relAlt, absAlt);
  }

  /** The latitude and longitude halves of an entry. */
  lemma EntryFront(lat: string, lon: string, relAlt: string, absAlt: string)
    ensures var s, a, b := Entry(lat, lon, relAlt, absAlt), |lat|, |lon|;
      |s| == 48 + a + b + |relAlt| + |absAlt|
      && s[..11] == "[latitude: " && s[11..11 + a] == lat
      && s[11 + a..25 + a] == "] [longitude: " && s[25 + a..25 + a + b] == lon
  {
  }

  /** The altitude half of an entry. */
  lemma EntryBack(lat: string, lon: string, relAlt: string, absAlt: string)
    ensures var s, n, c, d := Entry(lat, lon, relAlt, absAlt), |lat| + |lon|, |relAlt|, |absAlt|;
      |s| == 48 + n + c + d
      && s[25 + n..37 + n] == "] [rel_alt: " && s[37 + n..37 + n + c] == relAlt
      && s[37 + n + c..47 + n + c] == " abs_alt: " && s[47 + n + c..47 + n + c + d] == absAlt
      && s[47 + n + c + d] == ']'
  {
  }

  /** A match with none before it is the one `re.search` reports. */
  lemma SearchFindsAt(s: string, p: Pattern, i: nat, tok: string)
    requires i <= |s| && MatchAt(s, i, p) == Some(tok)
    requires NoneBetween(s, p, 0, i)
    ensures Search(s, p) == Some(tok)
  {
  }

  lemma LaidLatitude(s: string, lat: string, lon: string, relAlt: string, absAlt: string)
    requires IsNumberToken(lat) && Laid(s, lat, lon, relAlt, absAlt)
    ensures Search(s, LatitudePattern) == Some(lat)
  {
    assert s[0..11] == s[..11];
    MatchesToken(s, LatitudePattern, 0, "[latitude: ", 0, lat);
    SearchFindsAt(s, LatitudePattern, 0, lat);
  }

  /** Up to the end of the latitude token, only `[latitude:` can start a match of a key with `[`. */
  lemma LaidBeforeLongitudeKey(s: string, lat: string, lon: string, relAlt: string, absAlt: string, p: Pattern)
    requires IsNumberToken(lat) && Laid(s, lat, lon, relAlt, absAlt)
    requires p == LongitudePattern || p == RelAltPattern
    ensures NoneBetween(s, p, 0, 13 + |lat|)
  {
    var a := |lat|;
    assert s[0..11] == s[..11];
    NoMatchAt(s, p, 0, "[latitude: ", 0, 2);
    NoMatchIn(s, p, 0, "[latitude: ", 1, 11);
    NoneBetweenJoin(s, p, 0, 1, 11);
    NoMatchIn(s, p, 11, lat, 0, a);
    NoneBetweenJoin(s, p, 0, 11, 11 + a);
    NoMatchIn(s, p, 11 + a, "] [longitude: ", 0, 2);
    NoneBetweenJoin(s, p, 0, 11 + a, 13 + a);
  }

  lemma LaidLongitude(s: string, lat: string, lon: string, relAlt: string, absAlt: string)
    requires IsNumberToken(lat) && IsNumberToken(lon) && Laid(s, lat, lon, relAlt, absAlt)
    ensures Search(s, LongitudePattern) == Some(lon)
  {
    var p, a := LongitudePattern, |lat|;
    MatchesToken(s, p, 11 + a, "] [longitude: ", 2, lon);
    LaidBeforeLongitudeKey(s, lat, lon, relAlt, absAlt, p);
    SearchFindsAt(s, p, 13 + a, lon);
  }

  /** From the `[longitude:` key to the `[rel_alt:` key, no `[rel_alt:` starts. */
  lemma NoRelAltAcrossLongitude(s: string, at: nat, lon: string)
    requires IsNumberToken(lon) && at + 26 + |lon| <= |s|
    requires s[at..at + 14] == "] [longitude: " && s[at + 14..at + 14 + |lon|] == lon
    requires s[at + 14 + |lon|..at + 26 + |lon|] == "] [rel_alt: "
    ensures NoneBetween(s, RelAltPattern, at + 2, at + 16 + |lon|)
  {
    var p, b := RelAltPattern, |lon|;
    NoMatchAt(s, p, at, "] [longitude: ", 2, 1);
    NoMatchIn(s, p, at, "] [longitude: ", 3, 14);
    NoneBetweenJoin(s, p, at + 2, at + 3, at + 14);
    NoMatchIn(s, p, at + 14, lon, 0, b);
    NoneBetweenJoin(s, p, at + 2, at + 14, at + 14 + b);
    NoMatchIn(s, p, at + 14 + b, "] [rel_alt: ", 0, 2);
    NoneBetweenJoin(s, p, at + 2, at + 14 + b, at + 16 + b);
  }

  lemma LaidRelAltMatches(s: string, lat: string, lon: string, relAlt: string, absAlt: string)
    requires IsNumberToken(relAlt) && Laid(s, lat, lon, relAlt, absAlt)
    ensures MatchAt(s, 27 + |lat| + |lon|, RelAltPattern) == Some(relAlt)
  {
    MatchesToken(s, RelAltPattern, 25 + |lat| + |lon|, "] [rel_alt: ", 2, relAlt);
  }

  lemma LaidRelAltFirst(s: string, lat: string, lon: string, relAlt: string, absAlt: string)
    requires IsNumberToken(lat) && IsNumberToken(lon) && Laid(s, lat, lon, relAlt, absAlt)
    ensures NoneBetween(s, RelAltPattern, 0, 27 + |lat| + |lon|)
  {
    var p, a, b := RelAltPattern, |lat|, |lon|;
    LaidBeforeLongitudeKey(s, lat, lon, relAlt, absAlt, p);
    NoRelAltAcrossLongitude(s, 11 + a, lon);
    NoneBetweenJoin(s, p, 0, 13 + a, 27 + a + b);
  }

  lemma LaidRelAlt(s: string, lat: string, lon: string, relAlt: string, absAlt: string)
    requires IsNumberToken(lat) && IsNumberToken(lon) && IsNumberToken(relAlt) && Laid(s, lat, lon, relAlt, absAlt)
    ensures Search(s, RelAltPattern) == Some(relAlt)
  {
    LaidRelAltMatches(s, lat, lon, relAlt, absAlt);
    LaidRelAltFirst(s, lat, lon, relAlt, absAlt);
    SearchFindsAt(s, RelAltPattern, 27 + |lat| + |lon|, relAlt);
  }

  /** Up to the longitude token's end, no `abs_alt:` can start. */
  lemma LaidBeforeAbsAltLongitude(s: string, lat: string, lon: string, relAlt: string, absAlt: string)
    requires IsNumberToken(lat) && IsNumberToken(lon) && Laid(s, lat, lon, relAlt, absAlt)
    ensures NoneBetween(s, AbsAltPattern, 0, 25 + |lat| + |lon|)
  {
    var p, a, b := AbsAltPattern, |lat|, |lon|;
    assert s[0..11] == s[..11];
    NoMatchIn(s, p, 0, "[latitude: ", 0, 2);
    NoMatchAt(s, p, 0, "[latitude: ", 2, 1);
    NoneBetweenJoin(s, p, 0, 2, 3);
    NoMatchIn(s, p, 0, "[latitude: ", 3, 11);
    NoneBetweenJoin(s, p, 0, 3, 11);
    NoMatchIn(s, p, 11, lat, 0, a);
    NoneBetweenJoin(s, p, 0, 11, 11 + a);
    NoMatchIn(s, p, 11 + a, "] [longitude: ", 0, 14);
    NoneBetweenJoin(s, p, 0, 11 + a, 25 + a);
    NoMatchIn(s, p, 25 + a, lon, 0, b);
    NoneBetweenJoin(s, p, 0, 25 + a, 25 + a + b);
  }

  /** From the `[rel_alt:` piece to the `abs_alt:` key, no `abs_alt:` starts before the key. */
  lemma NoAbsAltAcrossRelAlt(s: string, at: nat, relAlt: string)
    requires IsNumberToken(relAlt) && at + 22 + |relAlt| <= |s|
    requires s[at..at + 12] == "] [rel_alt: " && s[at + 12..at + 12 + |relAlt|] == relAlt
    requires s[at + 12 + |relAlt|..at + 22 + |relAlt|] == " abs_alt: "
    ensures NoneBetween(s, AbsAltPattern, at, at + 13 + |relAlt|)
  {
    var p, c := AbsAltPattern, |relAlt|;
    NoMatchIn(s, p, at, "] [rel_alt: ", 0, 7);
    NoMatchAt(s, p, at, "] [rel_alt: ", 7, 1);
    NoneBetweenJoin(s, p, at, at + 7, at + 8);
    NoMatchIn(s, p, at, "] [rel_alt: ", 8, 12);
    NoneBetweenJoin(s, p, at, at + 8, at + 12);
    NoMatchIn(s, p, at + 12, relAlt, 0, c);
    NoneBetweenJoin(s, p, at, at + 12, at + 12 + c);
    NoMatchIn(s, p, at + 12 + c, " abs_alt: ", 0, 1);
    NoneBetweenJoin(s, p, at, at + 12 + c, at + 13 + c);
  }

  lemma LaidAbsAltMatches(s: string, lat: string, lon: string, relAlt: string, absAlt: string)
    requires IsNumberToken(absAlt) && Laid(s, lat, lon, relAlt, absAlt)
    ensures MatchAt(s, 38 + |lat| + |lon| + |relAlt|, AbsAltPattern) == Some(absAlt)
  {
    MatchesToken(s, AbsAltPattern, 37 + |lat| + |lon| + |relAlt|, " abs_alt: ", 1, absAlt);
  }

  lemma LaidAbsAltFirst(s: string, lat: string, lon: string, relAlt: string, absAlt: string)
    requires IsNumberToken(lat) && IsNumberToken(lon) && IsNumberToken(relAlt) && Laid(s, lat, lon, relAlt, absAlt)
    ensures NoneBetween(s, AbsAltPattern, 0, 38 + |lat| + |lon| + |relAlt|)
  {
    var p, a, b, c := AbsAltPattern, |lat|, |lon|, |relAlt|;
    LaidBeforeAbsAltLongitude(s, lat, lon, relAlt, absAlt);
    NoAbsAltAcrossRelAlt(s, 25 + a + b, relAlt);
    NoneBetweenJoin(s, p, 0, 25 + a + b, 38 + a + b + c);
  }

  lemma LaidAbsAlt(s: string, lat: string, lon: string, relAlt: string, absAlt: string)
    requires IsNumberToken(lat) && IsNumberToken(lon) && IsNumberToken(relAlt) && IsNumberToken(absAlt)
    requires Laid(s, lat, lon, relAlt, absAlt)
    ensures Search(s, AbsAltPattern) == Some(absAlt)
  {
    LaidAbsAltMatches(s, lat, lon, relAlt, absAlt);
    LaidAbsAltFirst(s, lat, lon, relAlt, absAlt);
    SearchFindsAt(s, AbsAltPattern, 38 + |lat| + |lon| + |relAlt|, absAlt);
  }

  /**
   * Reading back a subtitle written from four number tokens: the values come
   * back in the order (lat, lon, abs_alt, rel_alt) when every token converts,
   * and the whole entry is rejected when any one of them, rel_alt included,
   * does not.
   */
  lemma EntryRoundTrip(lat: string, lon: string, relAlt: string, absAlt: string)
    requires IsNumberToken(lat) && IsNumberToken(lon) && IsNumberToken(relAlt) && IsNumberToken(absAlt)
    ensures var la, lo, re, ab := ParseDecimal(lat), ParseDecimal(lon), ParseDecimal(relAlt), ParseDecimal(absAlt);
      ParseGps(Entry(lat, lon, relAlt, absAlt))
      == if la.Some? && lo.Some? && re.Some? && ab.Some?
         then Some(GpsFix(la.value, lo.value, ab.value, re))
         else None
  {
    EntryLayout(lat, lon, relAlt, absAlt);
    LaidRoundTrip(Entry(lat, lon, relAlt, absAlt), lat, lon, relAlt, absAlt);
  }

  lemma LaidRoundTrip(s: string, lat: string, lon: string, relAlt: string, absAlt: string)
    requires IsNumberToken(lat) && IsNumberToken(lon) && IsNumberToken(relAlt) && IsNumberToken(absAlt)
    requires Laid(s, lat, lon, relAlt, absAlt)
    ensures var la, lo, re, ab := ParseDecimal(lat), ParseDecimal(lon), ParseDecimal(relAlt), ParseDecimal(absAlt);
      ParseGps(s)
      == if la.Some? && lo.Some? && re.Some? && ab.Some?
         then Some(GpsFix(la.value, lo.value, ab.value, re))
         else None
  {
    LaidLatitude(s, lat, lon, relAlt, absAlt);
    LaidLongitude(s, lat, lon, relAlt, absAlt);
    LaidRelAlt(s, lat, lon, relAlt, absAlt);
    LaidAbsAlt(s, lat, lon, relAlt, absAlt);
    ParseGpsTokens(s, lat, lon, absAlt, relAlt);
  }

  /** Once the searches have found their tokens, the result depends only on those tokens. */
  lemma ParseGpsTokens(s: string, lat: string, lon: string, absAlt: string, relAlt: string)
    requires Search(s, LatitudePattern) == Some(lat) && Search(s, LongitudePattern) == Some(lon)
    requires Search(s, RelAltPattern) == Some(relAlt) && Search(s, AbsAltPattern) == Some(absAlt)
    ensures var la, lo, re, ab := ParseDecimal(lat), ParseDecimal(lon), ParseDecimal(relAlt), ParseDecimal(absAlt);
      ParseGps(s)
      == if la.Some? && lo.Some? && re.Some? && ab.Some?
         then Some(GpsFix(la.value, lo.value, ab.value, re))
         else None
  {
  }
}
