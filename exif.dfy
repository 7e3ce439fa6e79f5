/**
 * `to_deg` and the GPS Info record `set_gps_location` builds before it hands
 * it to the EXIF writer: the fields of section 4.6.6 of the Exif 2.3
 * specification (CIPA DC-008) that the script sets.
 */
module GpsExif {

  /** Python's `int()` on a number: truncation toward zero. */
  function Trunc(x: real): (r: int)
    ensures x >= 0.0 ==> 0 <= r && r as real <= x < r as real + 1.0
    ensures x < 0.0 ==> r <= 0 && r as real - 1.0 < x <= r as real
  {
    if x >= 0.0 then x.Floor else -((-x).Floor)
  }

  /** `round(x, 5)`: the nearest multiple of 1/100000, halves rounded up. */
  function Round5(x: real): (r: real)
    ensures x - 1.0 / 200000.0 < r <= x + 1.0 / 200000.0
    ensures r * 100000.0 == (r * 100000.0).Floor as real
  {
    (x * 100000.0 + 0.5).Floor as real / 100000.0
  }

  /** The tuple `(deg, min, sec, loc_value)` that `to_deg` returns. */
  datatype Dms = Dms(deg: int, min: int, sec: real, ref: string)

  /**
   * `to_deg(value, [pos, neg])`: whole degrees, whole minutes and seconds
   * rounded to five decimals of `abs(value)`, with `neg` for a negative
   * value, `pos` for a positive one and the empty string for zero.
   */
  function ToDeg(value: real, pos: string, neg: string): Dms
  {
    var ref := if value < 0.0 then neg else if value > 0.0 then pos else "";
    var absValue := if value < 0.0 then -value else value;
    var deg := Trunc(absValue);
    var t1 := (absValue - deg as real) * 60.0;
    var min := Trunc(t1);
    Dms(deg, min, Round5((t1 - min as real) * 60.0), ref)
  }

  function Abs(x: real): real { if x < 0.0 then -x else x }

  /** The decimal degrees a degree/minute/second triple stands for. */
  function DmsValue(deg: int, min: int, sec: real): real
  {
    deg as real + min as real / 60.0 + sec / 3600.0
  }

  /** Half a unit in the fifth decimal of a second, in degrees. */
  const Tolerance: real := 1.0 / 720000000.0

  /** An EXIF RATIONAL: numerator over denominator. */
  datatype Rational = Rational(num: int, den: int)

  function RationalValue(q: Rational): real
    requires q.den != 0
  {
    q.num as real / q.den as real
  }

  /** The GPS IFD entries the script writes (the piexif tag numbers are left implicit). */
  datatype GpsIfd = GpsIfd(
    latitudeRef: string, latitude: seq<Rational>,
    longitudeRef: string, longitude: seq<Rational>,
    altitudeRef: int, altitude: Rational)

  /** `((deg, 1), (min, 1), (int(sec * 100000), 100000))` */
  function Triple(d: Dms): seq<Rational>
  {
    [Rational(d.deg, 1), Rational(d.min, 1), Rational(Trunc(d.sec * 100000.0), 100000)]
  }

  /** The record built from the converted latitude, longitude and absolute altitude. */
  function BuildGpsIfd(lat: real, lon: real, absAlt: real): GpsIfd
  {
    var latDeg, lonDeg := ToDeg(lat, "N", "S"), ToDeg(lon, "E", "W");
    GpsIfd(latDeg.ref, Triple(latDeg), lonDeg.ref, Triple(lonDeg), 0, Rational(Trunc(absAlt * 100.0), 100))
  }

  /** The decimal degrees an EXIF coordinate triple stands for. */
  function TripleValue(t: seq<Rational>): real
    requires |t| == 3 && t[0].den != 0 && t[1].den != 0 && t[2].den != 0
  {
    RationalValue(t[0]) + RationalValue(t[1]) / 60.0 + RationalValue(t[2]) / 3600.0
  }
}

module GpsExifFacts {
  import opened GpsExif

  /** The decimal degrees a converted coordinate stands for, negated for the negative letter. */
  function SignedValue(d: Dms, neg: string): real
  {
    if d.ref == neg then -DmsValue(d.deg, d.min, d.sec) else DmsValue(d.deg, d.min, d.sec)
  }

  /**
   * With distinct hemisphere letters, the letter and the triple together
   * give back the signed coordinate, to within the rounding of the seconds.
   */
  lemma ToDegSignedRoundTrip(value: real, pos: string, neg: string)
    requires pos != neg
    ensures Abs(SignedValue(ToDeg(value, pos, neg), neg) - value) <= Tolerance
  {
    ToDegRoundTrip(value, pos, neg);
  }

  /** Degrees and minutes are whole and non-negative, minutes below 60, seconds within [0, 60]. */
  lemma ToDegRanges(value: real, pos: string, neg: string)
    ensures var d := ToDeg(value, pos, neg);
      0 <= d.deg && d.deg as real <= Abs(value) < d.deg as real + 1.0
      && 0 <= d.min < 60 && 0.0 <= d.sec <= 60.0
  {
    var absValue := Abs(value);
    var deg := Trunc(absValue);
    var t1 := (absValue - deg as real) * 60.0;
    assert 0.0 <= t1 < 60.0;
    var min := Trunc(t1);
    var x := (t1 - min as real) * 60.0;
    assert 0.0 <= x < 60.0;
    var n := (x * 100000.0 + 0.5).Floor;
    assert 0 <= n <= 6000000;
  }

  /**
   * Reading the triple back gives `abs(value)` to within half a unit of the
   * fifth decimal of a second: the only loss is the rounding of the seconds.
   */
  lemma ToDegRoundTrip(value: real, pos: string, neg: string)
    ensures var d := ToDeg(value, pos, neg);
      Abs(DmsValue(d.deg, d.min, d.sec) - Abs(value)) <= Tolerance
  {
    var absValue := Abs(value);
    var deg := Trunc(absValue);
    var t1 := (absValue - deg as real) * 60.0;
    var min := Trunc(t1);
    var exact := (t1 - min as real) * 60.0;
    assert DmsValue(deg, min, exact) == absValue;
    var sec := Round5(exact);
    assert DmsValue(deg, min, sec) - absValue == (sec - exact) / 3600.0;
  }

  /** The seconds are a whole number of hundred-thousandths, so `int(sec * 100000)` loses nothing. */
  lemma SecondsExact(value: real, pos: string, neg: string)
    ensures var d := ToDeg(value, pos, neg);
      Trunc(d.sec * 100000.0) as real / 100000.0 == d.sec
  {
    var d := ToDeg(value, pos, neg);
    ToDegRanges(value, pos, neg);
    var k := d.sec * 100000.0;
    assert k == k.Floor as real && k >= 0.0;
  }

  /**
   * The record: the reference letters follow the signs (none at zero), the
   * altitude reference is always 0 ("above sea level"), degrees and minutes
   * have denominator 1 and seconds 100000, and each triple reads back as the
   * coordinate's absolute value to within the rounding of the seconds.
   */
  lemma GpsIfdCoordinates(lat: real, lon: real, absAlt: real)
    ensures var r := BuildGpsIfd(lat, lon, absAlt);
      r.altitudeRef == 0
      && (r.latitudeRef == if lat < 0.0 then "S" else if lat > 0.0 then "N" else "")
      && (r.longitudeRef == if lon < 0.0 then "W" else if lon > 0.0 then "E" else "")
      && |r.latitude| == 3 && r.latitude[0].den == 1 && r.latitude[1].den == 1 && r.latitude[2].den == 100000
      && |r.longitude| == 3 && r.longitude[0].den == 1 && r.longitude[1].den == 1 && r.longitude[2].den == 100000
      && Abs(TripleValue(r.latitude) - Abs(lat)) <= Tolerance
      && Abs(TripleValue(r.longitude) - Abs(lon)) <= Tolerance
  {
    TripleReadsBack(lat, "N", "S");
    TripleReadsBack(lon, "E", "W");
  }

  lemma TripleReadsBack(value: real, pos: string, neg: string)
    ensures var t := Triple(ToDeg(value, pos, neg));
      |t| == 3 && t[0].den == 1 && t[1].den == 1 && t[2].den == 100000
      && Abs(TripleValue(t) - Abs(value)) <= Tolerance
  {
    var d := ToDeg(value, pos, neg);
    var t := Triple(d);
    SecondsExact(value, pos, neg);
    ToDegRoundTrip(value, pos, neg);
    assert RationalValue(t[0]) == d.deg as real;
    assert RationalValue(t[1]) == d.min as real;
    assert RationalValue(t[2]) == d.sec;
    assert TripleValue(t) == DmsValue(d.deg, d.min, d.sec);
  }

  /**
   * The altitude is `int(abs_alt * 100) / 100`: truncated toward zero to the
   * centimetre, so it never exceeds `abs_alt` in magnitude, keeps its sign,
   * and is less than a centimetre away.
   */
  lemma GpsIfdAltitude(lat: real, lon: real, absAlt: real)
    ensures var q := BuildGpsIfd(lat, lon, absAlt).altitude;
      q.den == 100
      && Abs(RationalValue(q)) <= Abs(absAlt)
      && Abs(absAlt - RationalValue(q)) < 1.0 / 100.0
      && (absAlt >= 0.0 ==> RationalValue(q) >= 0.0)
      && (absAlt <= 0.0 ==> RationalValue(q) <= 0.0)
  {
  }

  /**
   * Rounding can carry the seconds up to 60 without carrying into the
   * minutes: 0.0166666666 degrees gives 0 degrees, 0 minutes, 60 seconds.
   */
  lemma SecondsMayReachSixty(value: real)
    requires value == 0.0166666666
    ensures ToDeg(value, "N", "S") == Dms(0, 0, 60.0, "N")
  {
    assert Trunc(value) == 0;
    var t1 := value * 60.0;
    assert Trunc(t1) == 0;
    assert (t1 * 60.0 * 100000.0 + 0.5).Floor == 6000000;
  }
}
