/**
 * The file-name tests of frame_geotag_dji.py: `extract_video_prefix`,
 * `extract_frame_number`, and the `.srt` / `.jpg` tests of the directory scan.
 * The regular expressions are written out as scanners over the name.
 */
module FileNames {
  import opened Wrappers
  import opened Numerals

  /** `str.lower()` restricted to what it does to ASCII letters. */
  function Lower(c: char): char
  {
    if 'A' <= c <= 'Z' then ((c as int) + 32) as char else c
  }

  /**
   * Whether `c` matches the lower-case pattern character `p` under
   * `re.IGNORECASE`: same letter in either case, plus the equivalences Python's
   * regular expressions add for `i` (dotted capital and dotless small I) and
   * for `s` (long s).
   */
  predicate CiChar(c: char, p: char)
  {
    Lower(c) == p
    || (p == 'i' && ((c as int) == 0x130 || (c as int) == 0x131))
    || (p == 's' && (c as int) == 0x17F)
  }

  /** `lit` (lower case) occurs in `s` at position `i`, case-insensitively. */
  predicate CiAt(s: string, i: nat, lit: string)
  {
    i + |lit| <= |s| && forall j :: 0 <= j < |lit| ==> CiChar(s[i + j], lit[j])
  }

  /** The end of the run of digits that starts at `i`. */
  function DigitRunEnd(s: string, i: nat): (k: nat)
    requires i <= |s|
    ensures i <= k <= |s| && AllDigits(s[i..k]) && (k < |s| ==> !IsDigit(s[k]))
    decreases |s| - i
  {
    if i < |s| && IsDigit(s[i]) then DigitRunEnd(s, i + 1) else i
  }

  /** The name ends in `.jpg` in any case: the pattern tail `\.jpg$`. */
  predicate JpgAt(s: string, m: nat)
  {
    m + 4 == |s| && CiAt(s, m, ".jpg")
  }

  /** From `k`, the name continues as `_SE_<digits>.jpg` and ends. */
  predicate SeTailAt(f: string, k: nat)
    requires k <= |f|
  {
    CiAt(f, k, "_se_") && var m := DigitRunEnd(f, k + 4); m > k + 4 && JpgAt(f, m)
  }

  /** From `k`, the name continues as `_<digits>.jpg` and ends. */
  predicate PlainTailAt(f: string, k: nat)
    requires k <= |f|
  {
    k < |f| && f[k] == '_' && var m := DigitRunEnd(f, k + 1); m > k + 1 && JpgAt(f, m)
  }

  /**
   * `extract_video_prefix`: `re.match(r'(DJI_\d+)_SE_\d+\.jpg$', f, re.I)`,
   * and failing that `re.match(r'(DJI_\d+)_\d+\.jpg$', f, re.I)`; the result
   * is the first group, as it is spelled in `f`.
   */
  function VideoPrefix(f: string): Option<string>
  {
    if CiAt(f, 0, "dji_") then
      var k := DigitRunEnd(f, 4);
      if k > 4 && SeTailAt(f, k) then Some(f[..k])
      else if k > 4 && PlainTailAt(f, k) then Some(f[..k])
      else None
    else None
  }

  /** The start of the run of digits that ends at `k`. */
  function DigitRunStart(s: string, k: nat): (d: nat)
    requires k <= |s|
    ensures d <= k && (forall j :: d <= j < k ==> IsDigit(s[j])) && (d > 0 ==> !IsDigit(s[d - 1]))
  {
    if k > 0 && IsDigit(s[k - 1]) then DigitRunStart(s, k - 1) else k
  }

  /** The position of the last `_` before `k`. */
  function LastUnderscore(s: string, k: nat): (r: Option<nat>)
    requires k <= |s|
    ensures r.Some? ==> r.value < k && s[r.value] == '_' && forall j :: r.value < j < k ==> s[j] != '_'
    ensures r.None? ==> forall j :: 0 <= j < k ==> s[j] != '_'
  {
    if k == 0 then None
    else if s[k - 1] == '_' then Some(k - 1)
    else LastUnderscore(s, k - 1)
  }

  /**
   * `extract_frame_number`: the digits of `re.search(r'_SE_(\d+)\.jpg$', f, re.I)`
   * as an `int`; failing that, `int()` of the group of
   * `re.search(r'_([^_]+)\.jpg$', f, re.I)`, which is everything between the
   * last `_` and the `.jpg`; `None` when neither matches or `int()` fails.
   */
  function FrameNumber(f: string): Option<int>
  {
    if |f| >= 4 && JpgAt(f, |f| - 4) then
      var se := SeGroup(f, |f| - 4);
      if se.Some? then se else PlainGroup(f, |f| - 4)
    else None
  }

  /** `_SE_(\d+)` ending at `m`: the digits just before `m`, when `_SE_` precedes them. */
  function SeGroup(f: string, m: nat): Option<int>
    requires m <= |f|
  {
    var d := DigitRunStart(f, m);
    if d < m && d >= 4 && CiAt(f, d - 4, "_se_") then Some(DigitsValue(f[d..m])) else None
  }

  /** `_([^_]+)` ending at `m`: `int()` of what follows the last `_` before `m`. */
  function PlainGroup(f: string, m: nat): Option<int>
    requires m <= |f|
  {
    match LastUnderscore(f, m)
    case Some(u) => if u + 1 < m then ParseInt(f[u + 1..m]) else None
    case None => None
  }

  /**
   * `f.lower().endswith(".srt") and f.startswith("DJI_")`, giving the
   * prefix `f[:-4]` under which the scan files the subtitle.
   */
  function SrtPrefix(f: string): Option<string>
  {
    if |f| >= 4 && Lower(f[|f| - 4]) == '.' && Lower(f[|f| - 3]) == 's'
       && Lower(f[|f| - 2]) == 'r' && Lower(f[|f| - 1]) == 't' && f[..4] == "DJI_"
    then Some(f[..|f| - 4])
    else None
  }

  /** `f.lower().endswith(".jpg") and f.startswith("DJI_")`. */
  predicate IsDjiJpg(f: string)
  {
    |f| >= 4 && Lower(f[|f| - 4]) == '.' && Lower(f[|f| - 3]) == 'j'
    && Lower(f[|f| - 2]) == 'p' && Lower(f[|f| - 1]) == 'g' && f[..4] == "DJI_"
  }
}

module FileNameFacts {
  import opened Wrappers
  import opened Numerals
  import opened FileNames

  /** The shape `<DJI_ + digits>_SE_<digits>.jpg`, case-insensitive, with `p` the part before `_SE_`. */
  predicate SeShape(f: string, p: string)
  {
    |p| > 4 && p <= f && CiAt(p, 0, "dji_") && AllDigits(p[4..])
    && |f| > |p| + 8 && CiAt(f, |p|, "_se_") && AllDigits(f[|p| + 4..|f| - 4]) && CiAt(f, |f| - 4, ".jpg")
  }

  /** The shape `<DJI_ + digits>_<digits>.jpg`, case-insensitive, with `p` the part before the `_`. */
  predicate PlainShape(f: string, p: string)
  {
    |p| > 4 && p <= f && CiAt(p, 0, "dji_") && AllDigits(p[4..])
    && |f| > |p| + 5 && f[|p|] == '_' && AllDigits(f[|p| + 1..|f| - 4]) && CiAt(f, |f| - 4, ".jpg")
  }

  lemma {:induction false} DigitRunEndIs(s: string, i: nat, k: nat)
    requires i <= k <= |s| && AllDigits(s[i..k]) && (k < |s| ==> !IsDigit(s[k]))
    ensures DigitRunEnd(s, i) == k
    decreases k - i
  {
    if i < k {
      assert s[i..k][0] == s[i];
      assert s[i + 1..k] == s[i..k][1..];
      DigitRunEndIs(s, i + 1, k);
    }
  }

  lemma {:induction false} DigitRunStartIs(s: string, d: nat, k: nat)
    requires d <= k <= |s| && AllDigits(s[d..k]) && (d > 0 ==> !IsDigit(s[d - 1]))
    ensures DigitRunStart(s, k) == d
    decreases k - d
  {
    if d < k {
      assert s[d..k][k - 1 - d] == s[k - 1];
      assert s[d..k - 1] == s[d..k][..k - 1 - d];
      DigitRunStartIs(s, d, k - 1);
    }
  }

  /** A pattern character other than a letter matches only itself. */
  lemma CiCharSymbol(c: char, p: char)
    requires p == '_' || p == '.'
    ensures CiChar(c, p) <==> c == p
  {
  }

  /** What `extract_video_prefix` returns is the part of one of the two shapes before the frame digits. */
  lemma VideoPrefixShape(f: string)
    requires VideoPrefix(f).Some?
    ensures SeShape(f, VideoPrefix(f).value) || PlainShape(f, VideoPrefix(f).value)
  {
    var p := VideoPrefix(f).value;
    var k := DigitRunEnd(f, 4);
    assert p == f[..k];
    assert CiAt(p, 0, "dji_") by {
      forall j | 0 <= j < 4 ensures CiChar(p[j], "dji_"[j]) { assert CiChar(f[0 + j], "dji_"[j]); }
    }
    assert p[4..] == f[4..k];
    if SeTailAt(f, k) {
      var m := DigitRunEnd(f, k + 4);
      assert f[|p| + 4..|f| - 4] == f[k + 4..m];
    } else {
      var m := DigitRunEnd(f, k + 1);
      assert f[|p| + 1..|f| - 4] == f[k + 1..m];
    }
  }

  /** In both shapes the prefix is `DJI_` and all the digits after it, up to the `_`. */
  lemma ShapePrefixEnd(f: string, p: string)
    requires SeShape(f, p) || PlainShape(f, p)
    ensures CiAt(f, 0, "dji_") && DigitRunEnd(f, 4) == |p| && f[..|p|] == p
    ensures f[|f| - 4] == '.'
  {
    var k := |p|;
    assert CiAt(f, 0, "dji_") by {
      forall j | 0 <= j < 4 ensures CiChar(f[0 + j], "dji_"[j]) { assert f[j] == p[j]; assert CiChar(p[0 + j], "dji_"[j]); }
    }
    assert f[4..k] == p[4..];
    CiCharSymbol(f[k], '_');
    assert f[k] == '_' by { if SeShape(f, p) { assert CiChar(f[k + 0], "_se_"[0]); } }
    DigitRunEndIs(f, 4, k);
    CiCharSymbol(f[|f| - 4], '.');
    assert CiChar(f[|f| - 4 + 0], ".jpg"[0]);
  }

  /** Either shape is accepted, with the part before the frame digits as the prefix. */
  lemma ShapeVideoPrefix(f: string, p: string)
    requires SeShape(f, p) || PlainShape(f, p)
    ensures VideoPrefix(f) == Some(p)
  {
    var k := |p|;
    ShapePrefixEnd(f, p);
    if SeShape(f, p) {
      DigitRunEndIs(f, k + 4, |f| - 4);
      assert SeTailAt(f, k);
    } else {
      DigitRunEndIs(f, k + 1, |f| - 4);
      assert PlainTailAt(f, k);
    }
  }

  /** `extract_video_prefix` accepts exactly the two documented shapes and returns the part before the frame digits. */
  lemma VideoPrefixIff(f: string, p: string)
    ensures VideoPrefix(f) == Some(p) <==> SeShape(f, p) || PlainShape(f, p)
  {
    if VideoPrefix(f) == Some(p) { VideoPrefixShape(f); }
    if SeShape(f, p) || PlainShape(f, p) { ShapeVideoPrefix(f, p); }
  }

  /** Names that do not end in `.jpg` (in any case) have neither a prefix nor a frame number. */
  lemma NotJpgRejected(f: string)
    requires !(|f| >= 4 && CiAt(f, |f| - 4, ".jpg"))
    ensures VideoPrefix(f) == None && FrameNumber(f) == None
  {
    if VideoPrefix(f).Some? {
      VideoPrefixIff(f, VideoPrefix(f).value);
    }
  }

  /** The `_SE_` form of a frame name: its frame number is its last digits. */
  lemma SeFrame(f: string, p: string)
    requires SeShape(f, p)
    ensures DigitRunStart(f, |f| - 4) == |p| + 4
    ensures FrameNumber(f) == Some(DigitsValue(f[|p| + 4..|f| - 4]))
  {
    SeFrameAt(f, |p| + 4);
  }

  /** Digits after `_SE_` and before a final `.jpg` are the frame number. */
  lemma SeFrameAt(f: string, d: nat)
    requires 4 <= d < |f| - 4 && CiAt(f, d - 4, "_se_") && AllDigits(f[d..|f| - 4]) && CiAt(f, |f| - 4, ".jpg")
    ensures DigitRunStart(f, |f| - 4) == d
    ensures FrameNumber(f) == Some(DigitsValue(f[d..|f| - 4]))
  {
    assert f[d - 1] == '_' by {
      CiCharSymbol(f[d - 1], '_');
      assert CiChar(f[d - 4 + 3], "_se_"[3]);
    }
    DigitRunStartIs(f, d, |f| - 4);
  }

  /** In the plain form, no `_SE_` can end just before the frame digits. */
  lemma PlainNotSe(f: string, p: string)
    requires PlainShape(f, p)
    ensures !CiAt(f, |p| + 1 - 4, "_se_")
  {
    var d := |p| + 1;
    var c := f[d - 3];
    if d - 3 >= 4 {
      assert c == p[4..][d - 3 - 4];
    } else {
      assert d - 3 == 3 && c == p[3];
      CiCharSymbol(c, '_');
      assert CiChar(p[0 + 3], "dji_"[3]);
    }
    assert !CiChar(c, "_se_"[1]);
  }

  /** In the plain form, the last `_` is the one after the prefix. */
  lemma PlainLastUnderscore(f: string, p: string)
    requires PlainShape(f, p)
    ensures LastUnderscore(f, |f| - 4) == Some(|p|)
  {
    LastUnderscoreIs(f, |p|, |f| - 4);
  }

  /** An `_` followed only by digits up to `m` is the last one before `m`. */
  lemma {:induction false} LastUnderscoreIs(s: string, u: nat, m: nat)
    requires u < m <= |s| && s[u] == '_' && AllDigits(s[u + 1..m])
    ensures LastUnderscore(s, m) == Some(u)
    decreases m - u
  {
    if m - 1 > u {
      assert IsDigit(s[u + 1..m][m - 1 - (u + 1)]);
      assert s[u + 1..m - 1] == s[u + 1..m][..m - 1 - (u + 1)];
      LastUnderscoreIs(s, u, m - 1);
    }
  }

  /** The plain form of a frame name: its frame number is its last digits. */
  lemma PlainFrame(f: string, p: string)
    requires PlainShape(f, p)
    ensures DigitRunStart(f, |f| - 4) == |p| + 1
    ensures FrameNumber(f) == Some(DigitsValue(f[|p| + 1..|f| - 4]))
  {
    PlainNotSe(f, p);
    PlainFrameAt(f, |p|);
  }

  /** Digits after an `_` not ending `_SE_`, and before a final `.jpg`, are the frame number. */
  lemma PlainFrameAt(f: string, u: nat)
    requires 3 <= u && u + 5 < |f| && f[u] == '_' && AllDigits(f[u + 1..|f| - 4])
    requires JpgAt(f, |f| - 4) && !CiAt(f, u - 3, "_se_")
    ensures DigitRunStart(f, |f| - 4) == u + 1
    ensures FrameNumber(f) == Some(DigitsValue(f[u + 1..|f| - 4]))
  {
    var m := |f| - 4;
    DigitRunStartIs(f, u + 1, m);
    var d := DigitRunStart(f, m);
    assert d - 4 == u - 3;
    assert SeGroup(f, m) == None;
    LastUnderscoreIs(f, u, m);
    ParseIntDigits(f[u + 1..m]);
    assert PlainGroup(f, m) == Some(DigitsValue(f[u + 1..m]));
  }

  /**
   * Every name `extract_video_prefix` accepts also has a frame number: the
   * digits just before `.jpg`.  So the scan never drops a name whose prefix
   * it found.
   */
  lemma PrefixedNamesHaveFrames(f: string)
    requires VideoPrefix(f).Some?
    ensures var m := |f| - 4; var d := DigitRunStart(f, m);
      |f| >= 4 && d < m && FrameNumber(f) == Some(DigitsValue(f[d..m]))
  {
    var p := VideoPrefix(f).value;
    VideoPrefixIff(f, p);
    if SeShape(f, p) { SeFrame(f, p); } else { PlainFrame(f, p); }
  }

  lemma OneWithLeadingZeros()
    ensures DigitsValue("000001") == 1
  {
    assert DigitsValue("0") == 0;
    assert DigitsValue("00") == 0 by { assert "00"[..1] == "0"; }
    assert DigitsValue("000") == 0 by { assert "000"[..2] == "00"; }
    assert DigitsValue("0000") == 0 by { assert "0000"[..3] == "000"; }
    assert DigitsValue("00000") == 0 by { assert "00000"[..4] == "0000"; }
    assert "000001"[..5] == "00000";
  }

  /** The `_SE_` form named in the script's docstrings. */
  lemma SeExample(f: string)
    requires f == "DJI_0609_SE_000001.jpg"
    ensures VideoPrefix(f) == Some("DJI_0609")
    ensures FrameNumber(f) == Some(1)
  {
    var p := "DJI_0609";
    SeExampleShape(f, p);
    ShapeVideoPrefix(f, p);
    SeFrame(f, p);
    assert f[12..18] == "000001";
    OneWithLeadingZeros();
  }

  lemma SeExampleShape(f: string, p: string)
    requires f == "DJI_0609_SE_000001.jpg" && p == "DJI_0609"
    ensures SeShape(f, p)
  {
    assert CiAt(p, 0, "dji_");
    assert AllDigits(p[4..]);
    assert p <= f;
    assert CiAt(f, 8, "_se_");
    assert AllDigits(f[12..18]);
    assert CiAt(f, 18, ".jpg");
  }

  /** The plain form named in the script's docstrings. */
  lemma PlainExample(f: string)
    requires f == "DJI_0609_000001.jpg"
    ensures VideoPrefix(f) == Some("DJI_0609")
    ensures FrameNumber(f) == Some(1)
  {
    var p := "DJI_0609";
    PlainExampleShape(f, p);
    ShapeVideoPrefix(f, p);
    PlainFrame(f, p);
    assert f[9..15] == "000001";
    OneWithLeadingZeros();
  }

  lemma PlainExampleShape(f: string, p: string)
    requires f == "DJI_0609_000001.jpg" && p == "DJI_0609"
    ensures PlainShape(f, p)
  {
    assert CiAt(p, 0, "dji_");
    assert AllDigits(p[4..]);
    assert p <= f;
    assert AllDigits(f[9..15]);
    assert CiAt(f, 15, ".jpg");
  }
}
