/**
 * How one frame finds its telemetry: the frame's time in the video, the
 * linear search for the first subtitle whose interval holds that time, and
 * what the script then does with that one subtitle.
 */
module Alignment {
  import opened Wrappers
  import opened Telemetry
  import opened GpsExif

  /** A subtitle entry as the SRT reader gives it: start and end in milliseconds (`.ordinal`) and its text. */
  datatype Subtitle = Subtitle(startMs: int, endMs: int, text: string)

  /** `(frame_number - 1) / extraction_fps`, in milliseconds. */
  function FrameTimeMs(frame: int, fps: real): real
    requires fps != 0.0
  {
    (frame - 1) as real / fps * 1000.0
  }

  /** `sub_start_ms <= frame_timedelta_ms <= sub_end_ms`: the closed interval holds `t`. */
  predicate Covers(sub: Subtitle, t: real)
  {
    sub.startMs as real <= t <= sub.endMs as real
  }

  /** The first entry at or after `from`, in list order, whose interval holds `t`. */
  function FirstCovering(subs: seq<Subtitle>, t: real, from: nat): (r: Option<nat>)
    requires from <= |subs|
    ensures r.Some? ==> from <= r.value < |subs| && Covers(subs[r.value], t)
    ensures r.Some? ==> forall j :: from <= j < r.value ==> !Covers(subs[j], t)
    ensures r.None? ==> forall j :: from <= j < |subs| ==> !Covers(subs[j], t)
    decreases |subs| - from
  {
    if from == |subs| then None
    else if Covers(subs[from], t) then Some(from)
    else FirstCovering(subs, t, from + 1)
  }

  /**
   * What happens to one frame: no entry holds its time; the entry that does
   * cannot be parsed; or the record built from it was handed to the writer,
   * which reported `ok`.
   */
  datatype FrameOutcome = NoEntry | Unparsable(entry: nat) | Written(entry: nat, fix: GpsFix, ok: bool)

  /**
   * The outcome for frame `frame` of image `name`: only the first entry that
   * holds the frame's time is consulted.  `write` stands for the EXIF write of
   * `set_gps_location`, which either succeeds or reports failure.
   */
  function FrameOutcomeOf(name: string, frame: int, fps: real, subs: seq<Subtitle>,
                          write: (string, GpsIfd) -> bool): FrameOutcome
    requires fps != 0.0
  {
    match FirstCovering(subs, FrameTimeMs(frame, fps), 0)
    case None => NoEntry
    case Some(i) =>
      match ParseGps(subs[i].text)
      case None => Unparsable(i)
      case Some(fix) => Written(i, fix, write(name, BuildGpsIfd(fix.lat, fix.lon, fix.absAlt)))
  }

  /**
   * The `for sub in subs` search for one frame and its `gps_data_found`
   * flag.  The script parses the covering entry inside the loop and breaks
   * on either parse result; here the loop breaks at that entry and the parse
   * follows it, which consults the same single entry.
   */
  method TagFrame(name: string, frame: int, fps: real, subs: seq<Subtitle>, write: (string, GpsIfd) -> bool)
    returns (outcome: FrameOutcome, gpsDataFound: bool)
    requires fps != 0.0
    ensures outcome == FrameOutcomeOf(name, frame, fps, subs, write)
    ensures gpsDataFound == outcome.Written?
  {
    var frameTimeSeconds := (frame - 1) as real / fps;
    var frameTimeMs := frameTimeSeconds * 1000.0;
    var covering: Option<nat> := None;
    var i := 0;
    while i < |subs|
      invariant 0 <= i <= |subs|
      invariant forall j :: 0 <= j < i ==> !Covers(subs[j], frameTimeMs)
    {
      var sub := subs[i];
      if sub.startMs as real <= frameTimeMs <= sub.endMs as real {
        FirstCoveringIs(subs, frameTimeMs, i);
        covering := Some(i);
        break;
      }
      i := i + 1;
    }
    gpsDataFound := false;
    outcome := NoEntry;
    if covering.Some? {
      var gpsResult := ParseGps(subs[covering.value].text);
      if gpsResult.Some? {
        var fix := gpsResult.value;
        var ok := write(name, BuildGpsIfd(fix.lat, fix.lon, fix.absAlt));
        outcome := Written(covering.value, fix, ok);
        gpsDataFound := true;
      } else {
        outcome := Unparsable(covering.value);
      }
    }
  }

  /** An entry that holds `t` with none before it is the first. */
  lemma FirstCoveringIs(subs: seq<Subtitle>, t: real, i: nat)
    requires i < |subs| && Covers(subs[i], t)
    requires forall j :: 0 <= j < i ==> !Covers(subs[j], t)
    ensures FirstCovering(subs, t, 0) == Some(i)
  {
  }
}

module AlignmentFacts {
  import opened Wrappers
  import opened Telemetry
  import opened GpsExif
  import opened Alignment

  /** With a positive extraction rate, later frames sit strictly later in the video. */
  lemma FrameTimeMonotone(a: int, b: int, fps: real)
    requires fps > 0.0
    ensures a < b <==> FrameTimeMs(a, fps) < FrameTimeMs(b, fps)
    ensures a <= b <==> FrameTimeMs(a, fps) <= FrameTimeMs(b, fps)
  {
    if a < b {
      assert (b - 1) as real / fps - (a - 1) as real / fps == (b - a) as real / fps;
      assert (b - a) as real / fps > 0.0;
      assert (a - 1) as real / fps < (b - 1) as real / fps;
    } else {
      assert (b - 1) as real / fps <= (a - 1) as real / fps;
    }
  }

  /**
   * What the search settles on, without reference to how it searches: no
   * entry when no interval holds the frame's time; otherwise the first entry
   * that holds it, unparsable exactly when its text does not parse, and
   * otherwise written with the fix parsed from it.
   */
  lemma FrameOutcomeSpec(name: string, frame: int, fps: real, subs: seq<Subtitle>,
                         write: (string, GpsIfd) -> bool)
    requires fps != 0.0
    ensures var t := FrameTimeMs(frame, fps);
            FrameOutcomeOf(name, frame, fps, subs, write) == NoEntry
            <==> forall j :: 0 <= j < |subs| ==> !Covers(subs[j], t)
    ensures var t := FrameTimeMs(frame, fps);
            var o := FrameOutcomeOf(name, frame, fps, subs, write);
            !o.NoEntry? ==>
              o.entry < |subs| && Covers(subs[o.entry], t)
              && (forall j :: 0 <= j < o.entry ==> !Covers(subs[j], t))
              && (o.Unparsable? <==> ParseGps(subs[o.entry].text).None?)
              && (o.Written? ==> ParseGps(subs[o.entry].text) == Some(o.fix)
                                 && o.ok == write(name, BuildGpsIfd(o.fix.lat, o.fix.lon, o.fix.absAlt)))
  {
  }

  /** Entries after the first one that holds the frame's time are never consulted. */
  lemma LaterEntriesIgnored(name: string, frame: int, fps: real, subs: seq<Subtitle>, more: seq<Subtitle>,
                            write: (string, GpsIfd) -> bool, j: nat)
    requires fps != 0.0
    requires j < |subs| && Covers(subs[j], FrameTimeMs(frame, fps))
    ensures FrameOutcomeOf(name, frame, fps, subs + more, write) == FrameOutcomeOf(name, frame, fps, subs, write)
  {
    var t := FrameTimeMs(frame, fps);
    var i := FirstCovering(subs, t, 0).value;
    assert (subs + more)[i] == subs[i];
    FirstCoveringIs(subs + more, t, i);
  }

  /** Entries in time order, each ending no later than the next begins. */
  predicate Chronological(subs: seq<Subtitle>)
  {
    forall i, j :: 0 <= i < j < |subs| ==> subs[i].endMs <= subs[j].startMs
  }

  /** Over chronological entries, a later frame never draws on an earlier entry. */
  lemma EntriesFollowFrames(subs: seq<Subtitle>, a: int, b: int, fps: real)
    requires fps > 0.0 && a <= b && Chronological(subs)
    requires FirstCovering(subs, FrameTimeMs(a, fps), 0).Some?
    requires FirstCovering(subs, FrameTimeMs(b, fps), 0).Some?
    ensures FirstCovering(subs, FrameTimeMs(a, fps), 0).value <= FirstCovering(subs, FrameTimeMs(b, fps), 0).value
  {
    FrameTimeMonotone(a, b, fps);
  }

  /** A frame later than every entry's end gets no telemetry: nothing clamps it to the last entry. */
  lemma PastLastEntryUntagged(name: string, frame: int, fps: real, subs: seq<Subtitle>,
                              write: (string, GpsIfd) -> bool)
    requires fps != 0.0
    requires forall j :: 0 <= j < |subs| ==> (subs[j].endMs as real) < FrameTimeMs(frame, fps)
    ensures FrameOutcomeOf(name, frame, fps, subs, write) == NoEntry
  {
  }

  /**
   * The intervals are closed: at 5 frames per second, frame 6 sits at
   * 1000 ms, the end of one entry and the start of the next, and takes the
   * earlier entry; frame 12, at 2200 ms and past the last entry, takes none.
   */
  lemma SharedBoundaryGoesToEarlier(subs: seq<Subtitle>, x: string, y: string)
    requires subs == [Subtitle(0, 1000, x), Subtitle(1000, 2000, y)]
    ensures FirstCovering(subs, FrameTimeMs(6, 5.0), 0) == Some(0)
    ensures FirstCovering(subs, FrameTimeMs(11, 5.0), 0) == Some(1)
    ensures FirstCovering(subs, FrameTimeMs(12, 5.0), 0) == None
  {
    assert FrameTimeMs(6, 5.0) == 1000.0;
    assert FrameTimeMs(11, 5.0) == 2000.0;
    assert FrameTimeMs(12, 5.0) == 2200.0;
    FirstCoveringIs(subs, 1000.0, 0);
    FirstCoveringIs(subs, 2000.0, 1);
  }
}
