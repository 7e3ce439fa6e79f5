/**
 * Steps 2 and 3 of `geotag_dji_frames`: the extraction rate, and the loop
 * over the matched groups that reads each subtitle file, tags each image
 * and keeps the success counters; with the early exits of step 1 this is
 * the whole run.
 */
module Geotag {
  import opened Wrappers
  import opened GpsExif
  import opened Grouping
  import opened GroupingFacts
  import opened Alignment

  /** The per-group line of the report: the subtitle file could not be read, or `group_success` of `len(images)`. */
  datatype GroupReport = Skipped(prefix: string) | Tagged(prefix: string, succeeded: nat, attempted: nat)

  /**
   * How a run ends: one of the three early exits of step 1, the division by
   * a zero extraction rate, or the final report with `total_success` and
   * `total_images`.
   */
  datatype RunResult =
    | NoSrtFiles
    | NoImageFiles
    | NoMatchedGroups(srtPrefixes: seq<string>, imagePrefixes: seq<string>)
    | ZeroExtractionRate
    | Completed(reports: seq<GroupReport>, totalSuccess: nat, totalImages: nat)

  /** The default rate used when the answer is empty or does not convert. */
  const DefaultExtractionRate: real := 5.0

  /** The extraction rate: the converted answer, or 5 frames per second. */
  function ExtractionRate(answer: Option<real>): real
  {
    if answer.Some? then answer.value else DefaultExtractionRate
  }

  /** The EXIF write was attempted and reported success. */
  predicate WrittenOk(o: FrameOutcome)
  {
    o.Written? && o.ok
  }

  /** What happened to each image of a group, in order. */
  function Outcomes(images: seq<ImageFile>, fps: real, subs: seq<Subtitle>,
                    write: (string, GpsIfd) -> bool): (os: seq<FrameOutcome>)
    requires fps != 0.0
    ensures |os| == |images|
  {
    if images == [] then []
    else
      var img := images[|images| - 1];
      Outcomes(images[..|images| - 1], fps, subs, write) + [FrameOutcomeOf(img.name, img.frame, fps, subs, write)]
  }

  /** The number of outcomes that are writes the writer reported as successful. */
  function CountWritten(os: seq<FrameOutcome>): (n: nat)
    ensures n <= |os|
  {
    if os == [] then 0
    else CountWritten(os[..|os| - 1]) + (if WrittenOk(os[|os| - 1]) then 1 else 0)
  }

  /** `group_success`: the images of a group whose EXIF write reported success. */
  function Succeeded(images: seq<ImageFile>, fps: real, subs: seq<Subtitle>,
                     write: (string, GpsIfd) -> bool): (n: nat)
    requires fps != 0.0
    ensures n <= |images|
  {
    CountWritten(Outcomes(images, fps, subs, write))
  }

  /** The report line of one group: skipped when `pysrt.open` fails, otherwise its counts. */
  function GroupReportOf(g: Group, fps: real, openSrt: string -> Option<seq<Subtitle>>,
                         write: (string, GpsIfd) -> bool): GroupReport
    requires fps != 0.0
  {
    match openSrt(g.srtFile)
    case None => Skipped(g.prefix)
    case Some(subs) => Tagged(g.prefix, Succeeded(g.images, fps, subs, write), |g.images|)
  }

  /** The report lines of the groups, in order. */
  function Reports(groups: seq<Group>, fps: real, openSrt: string -> Option<seq<Subtitle>>,
                   write: (string, GpsIfd) -> bool): (r: seq<GroupReport>)
    requires fps != 0.0
    ensures |r| == |groups|
  {
    if groups == [] then []
    else Reports(groups[..|groups| - 1], fps, openSrt, write) + [GroupReportOf(groups[|groups| - 1], fps, openSrt, write)]
  }

  /** `total_success`: the successes of the groups whose subtitle file was read. */
  function TotalSuccess(reports: seq<GroupReport>): nat
  {
    if reports == [] then 0
    else
      var last := reports[|reports| - 1];
      TotalSuccess(reports[..|reports| - 1]) + (if last.Tagged? then last.succeeded else 0)
  }

  /** `total_images`: the images of the groups whose subtitle file was read. */
  function TotalImages(reports: seq<GroupReport>): nat
  {
    if reports == [] then 0
    else
      var last := reports[|reports| - 1];
      TotalImages(reports[..|reports| - 1]) + (if last.Tagged? then last.attempted else 0)
  }

  /**
   * The whole run over the sorted listing `names`: `answer` is the converted
   * extraction-rate answer, `openSrt` stands for `pysrt.open` and `write`
   * for the EXIF write of `set_gps_location`.
   */
  function Run(names: seq<string>, answer: Option<real>, openSrt: string -> Option<seq<Subtitle>>,
               write: (string, GpsIfd) -> bool): RunResult
  {
    var d := Scan(names);
    if d.srtFiles == map[] then NoSrtFiles
    else if d.imageGroups == map[] then NoImageFiles
    else
      ScanConsistent(names);
      var matched := Matched(d.srtOrder, d.srtFiles, d.imageGroups);
      if matched == [] then NoMatchedGroups(d.srtOrder, d.imageOrder)
      else
        var fps := ExtractionRate(answer);
        if fps == 0.0 then ZeroExtractionRate
        else
          var reports := Reports(matched, fps, openSrt, write);
          Completed(reports, TotalSuccess(reports), TotalImages(reports))
  }

  /** One more image adds one to the count exactly when its write succeeded. */
  lemma SucceededStep(images: seq<ImageFile>, k: int, fps: real, subs: seq<Subtitle>,
                      write: (string, GpsIfd) -> bool, o: FrameOutcome)
    requires fps != 0.0 && 0 <= k < |images|
    requires o == FrameOutcomeOf(images[k].name, images[k].frame, fps, subs, write)
    ensures CountWritten(Outcomes(images[..k + 1], fps, subs, write))
            == CountWritten(Outcomes(images[..k], fps, subs, write)) + (if WrittenOk(o) then 1 else 0)
  {
    assert images[..k + 1][..k] == images[..k];
    var os := Outcomes(images[..k + 1], fps, subs, write);
    assert os[..k] == Outcomes(images[..k], fps, subs, write);
  }

  /**
   * The `for img_filename, frame_number in images` loop of one group with
   * its three counters; `successBefore` and `imagesBefore` are the run's
   * totals on entry.
   */
  method TagGroup(images: seq<ImageFile>, fps: real, subs: seq<Subtitle>, write: (string, GpsIfd) -> bool,
                  successBefore: nat, imagesBefore: nat)
    returns (groupSuccess: nat, totalSuccess: nat, totalImages: nat)
    requires fps != 0.0
    ensures groupSuccess == Succeeded(images, fps, subs, write)
    ensures totalSuccess == successBefore + groupSuccess
    ensures totalImages == imagesBefore + |images|
  {
    groupSuccess, totalSuccess, totalImages := 0, successBefore, imagesBefore;
    var k := 0;
    while k < |images|
      invariant 0 <= k <= |images|
      invariant groupSuccess == CountWritten(Outcomes(images[..k], fps, subs, write))
      invariant totalSuccess == successBefore + groupSuccess
      invariant totalImages == imagesBefore + k
    {
      var img := images[k];
      totalImages := totalImages + 1;
      var outcome, gpsDataFound := TagFrame(img.name, img.frame, fps, subs, write);
      SucceededStep(images, k, fps, subs, write, outcome);
      if outcome.Written? && outcome.ok {
        groupSuccess := groupSuccess + 1;
        totalSuccess := totalSuccess + 1;
      }
      k := k + 1;
    }
    assert images[..k] == images;
  }

  /**
   * The body of the loop over the matched groups for group `g`: `pysrt.open`
   * failing skips the group before any image is counted.
   */
  method ProcessGroup(g: Group, fps: real, openSrt: string -> Option<seq<Subtitle>>,
                      write: (string, GpsIfd) -> bool, successBefore: nat, imagesBefore: nat)
    returns (report: GroupReport, totalSuccess: nat, totalImages: nat)
    requires fps != 0.0
    ensures report == GroupReportOf(g, fps, openSrt, write)
    ensures totalSuccess == successBefore + (if report.Tagged? then report.succeeded else 0)
    ensures totalImages == imagesBefore + (if report.Tagged? then report.attempted else 0)
  {
    var parsed := openSrt(g.srtFile);
    if parsed.None? {
      return Skipped(g.prefix), successBefore, imagesBefore;
    }
    var groupSuccess;
    groupSuccess, totalSuccess, totalImages := TagGroup(g.images, fps, parsed.value, write, successBefore, imagesBefore);
    report := Tagged(g.prefix, groupSuccess, |g.images|);
  }

  /** The `for prefix, data in matched_groups.items()` loop. */
  method ProcessGroups(groups: seq<Group>, fps: real, openSrt: string -> Option<seq<Subtitle>>,
                       write: (string, GpsIfd) -> bool)
    returns (reports: seq<GroupReport>, totalSuccess: nat, totalImages: nat)
    requires fps != 0.0
    ensures reports == Reports(groups, fps, openSrt, write)
    ensures totalSuccess == TotalSuccess(reports) && totalImages == TotalImages(reports)
  {
    reports, totalSuccess, totalImages := [], 0, 0;
    var i := 0;
    while i < |groups|
      invariant 0 <= i <= |groups|
      invariant reports == Reports(groups[..i], fps, openSrt, write)
      invariant totalSuccess == TotalSuccess(reports) && totalImages == TotalImages(reports)
    {
      assert groups[..i + 1][..i] == groups[..i];
      var report;
      report, totalSuccess, totalImages := ProcessGroup(groups[i], fps, openSrt, write, totalSuccess, totalImages);
      reports := reports + [report];
      assert reports[..|reports| - 1] == Reports(groups[..i], fps, openSrt, write);
      i := i + 1;
    }
    assert groups[..i] == groups;
  }

  /** `geotag_dji_frames`, from the directory listing to the final report. */
  method GeotagDjiFrames(names: seq<string>, answer: Option<real>, openSrt: string -> Option<seq<Subtitle>>,
                         write: (string, GpsIfd) -> bool)
    returns (result: RunResult)
    ensures result == Run(names, answer, openSrt, write)
  {
    var d := DiscoverFiles(names);
    if d.srtFiles == map[] {
      return NoSrtFiles;
    }
    if d.imageGroups == map[] {
      return NoImageFiles;
    }
    ScanConsistent(names);
    var matched := MatchGroups(d);
    if matched == [] {
      return NoMatchedGroups(d.srtOrder, d.imageOrder);
    }
    var fps := ExtractionRate(answer);
    if fps == 0.0 {
      return ZeroExtractionRate;
    }
    var reports, totalSuccess, totalImages := ProcessGroups(matched, fps, openSrt, write);
    result := Completed(reports, totalSuccess, totalImages);
  }
}

module GeotagFacts {
  import opened Wrappers
  import opened GpsExif
  import opened Grouping
  import opened GroupingFacts
  import opened Alignment
  import opened Geotag

  /** The images of the groups whose subtitle file could be read. */
  function OpenedImages(groups: seq<Group>, openSrt: string -> Option<seq<Subtitle>>): nat
  {
    if groups == [] then 0
    else
      var g := groups[|groups| - 1];
      OpenedImages(groups[..|groups| - 1], openSrt) + (if openSrt(g.srtFile).Some? then |g.images| else 0)
  }

  /**
   * `total_images` counts every image of every group whose subtitle file
   * was read, and `total_success` never exceeds it.
   */
  lemma {:induction false} ReportsTotals(groups: seq<Group>, fps: real, openSrt: string -> Option<seq<Subtitle>>,
                                         write: (string, GpsIfd) -> bool)
    requires fps != 0.0
    ensures TotalImages(Reports(groups, fps, openSrt, write)) == OpenedImages(groups, openSrt)
    ensures TotalSuccess(Reports(groups, fps, openSrt, write)) <= TotalImages(Reports(groups, fps, openSrt, write))
  {
    if groups != [] {
      var init := groups[..|groups| - 1];
      ReportsTotals(init, fps, openSrt, write);
      var r := Reports(groups, fps, openSrt, write);
      assert r[..|r| - 1] == Reports(init, fps, openSrt, write);
    }
  }

  /** The outcome recorded for an image is the outcome of its own search. */
  lemma {:induction false} OutcomesAt(images: seq<ImageFile>, fps: real, subs: seq<Subtitle>,
                                      write: (string, GpsIfd) -> bool, i: nat)
    requires fps != 0.0 && i < |images|
    ensures Outcomes(images, fps, subs, write)[i] == FrameOutcomeOf(images[i].name, images[i].frame, fps, subs, write)
  {
    if i < |images| - 1 {
      OutcomesAt(images[..|images| - 1], fps, subs, write, i);
    }
  }

  /** Counting over two runs of outcomes adds up. */
  lemma {:induction false} CountWrittenAppend(a: seq<FrameOutcome>, b: seq<FrameOutcome>)
    ensures CountWritten(a + b) == CountWritten(a) + CountWritten(b)
    decreases |b|
  {
    if b == [] {
      assert a + b == a;
    } else {
      assert (a + b)[..|a + b| - 1] == a + b[..|b| - 1];
      CountWrittenAppend(a, b[..|b| - 1]);
    }
  }

  /** The count is positive exactly when some outcome is a successful write. */
  lemma {:induction false} CountWrittenWitness(os: seq<FrameOutcome>)
    ensures CountWritten(os) > 0 <==> exists i :: 0 <= i < |os| && WrittenOk(os[i])
  {
    if os != [] {
      var init := os[..|os| - 1];
      CountWrittenWitness(init);
      if CountWritten(init) > 0 {
        var i :| 0 <= i < |init| && WrittenOk(init[i]);
        assert os[i] == init[i];
      }
      forall i | 0 <= i < |init|
        ensures os[i] == init[i]
      {
      }
    }
  }

  /** A group has a success exactly when one of its images had its subtitle parsed and its write succeed. */
  lemma SucceededWitness(images: seq<ImageFile>, fps: real, subs: seq<Subtitle>,
                         write: (string, GpsIfd) -> bool)
    requires fps != 0.0
    ensures Succeeded(images, fps, subs, write) > 0
            <==> exists i :: 0 <= i < |images| && WrittenOk(FrameOutcomeOf(images[i].name, images[i].frame, fps, subs, write))
  {
    var os := Outcomes(images, fps, subs, write);
    CountWrittenWitness(os);
    forall i | 0 <= i < |images|
      ensures os[i] == FrameOutcomeOf(images[i].name, images[i].frame, fps, subs, write)
    {
      OutcomesAt(images, fps, subs, write, i);
    }
  }

  /** An empty subtitle file tags nothing. */
  lemma {:induction false} EmptySubtitlesTagNothing(images: seq<ImageFile>, fps: real, write: (string, GpsIfd) -> bool)
    requires fps != 0.0
    ensures forall o :: o in Outcomes(images, fps, [], write) ==> o == NoEntry
  {
    if images != [] {
      EmptySubtitlesTagNothing(images[..|images| - 1], fps, write);
    }
  }

  /** A map is empty exactly when nothing is a key of it. */
  lemma EmptyMapNoKeys<V>(m: map<string, V>, keys: seq<string>)
    requires forall p :: p in m <==> p in keys
    ensures m == map[] <==> keys == []
  {
    if keys != [] {
      assert keys[0] in m;
    }
  }

  /**
   * The early exits: no subtitle file named `DJI_*.srt`; subtitle files but
   * no usable image; both, but no prefix shared by a subtitle file and an
   * image.
   */
  lemma RunEarlyExits(names: seq<string>, answer: Option<real>, openSrt: string -> Option<seq<Subtitle>>,
                      write: (string, GpsIfd) -> bool)
    ensures Run(names, answer, openSrt, write) == NoSrtFiles <==> SrtPrefixes(names) == []
    ensures Run(names, answer, openSrt, write) == NoImageFiles
            <==> SrtPrefixes(names) != [] && ImagePrefixes(names) == []
    ensures Run(names, answer, openSrt, write).NoMatchedGroups?
            <==> SrtPrefixes(names) != [] && ImagePrefixes(names) != []
                 && forall p :: p in SrtPrefixes(names) ==> p !in ImagePrefixes(names)
  {
    var d := Scan(names);
    ScanIsDistinct(names);
    ScanConsistent(names);
    EmptyMapNoKeys(d.srtFiles, SrtPrefixes(names));
    EmptyMapNoKeys(d.imageGroups, ImagePrefixes(names));
    NothingMatched(d);
  }

  /** A completed run never reports more successes than images counted. */
  lemma RunTotals(names: seq<string>, answer: Option<real>, openSrt: string -> Option<seq<Subtitle>>,
                  write: (string, GpsIfd) -> bool)
    ensures var r := Run(names, answer, openSrt, write);
            r.Completed? ==> r.totalSuccess <= r.totalImages && |r.reports| > 0
  {
    var d := Scan(names);
    if d.srtFiles != map[] && d.imageGroups != map[] {
      ScanConsistent(names);
      var matched := Matched(d.srtOrder, d.srtFiles, d.imageGroups);
      var fps := ExtractionRate(answer);
      if matched != [] && fps != 0.0 {
        ReportsTotals(matched, fps, openSrt, write);
      }
    }
  }
}
