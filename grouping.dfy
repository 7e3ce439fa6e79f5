/**
 * Step 1 of `geotag_dji_frames`: the scan of the sorted directory listing
 * into subtitle files and image groups keyed by video prefix, the sort of
 * each group by frame number, and the pairing of subtitle files with image
 * groups.  Python's insertion-ordered dictionaries are modelled as a key
 * order (a sequence) beside a map.
 */
module Grouping {
  import opened Wrappers
  import opened FileNames

  /** One `(img_filename, frame_number)` pair of an image group. */
  datatype ImageFile = ImageFile(name: string, frame: int)

  /**
   * The state the scan builds: `srt_files` (prefix to file name) and
   * `image_groups` (prefix to its images), each with its keys in insertion
   * order.
   */
  datatype Discovery = Discovery(srtOrder: seq<string>, srtFiles: map<string, string>,
                                 imageOrder: seq<string>, imageGroups: map<string, seq<ImageFile>>)

  predicate NoDup<T(==)>(s: seq<T>)
  {
    forall i, j :: 0 <= i < j < |s| ==> s[i] != s[j]
  }

  /**
   * The shape of a dictionary pair: each key listed once, the listed keys
   * are the map's keys, and (for image groups) no group is empty.
   */
  ghost predicate Consistent(d: Discovery)
  {
    NoDup(d.srtOrder) && (forall p :: p in d.srtOrder <==> p in d.srtFiles)
    && NoDup(d.imageOrder) && (forall p :: p in d.imageOrder <==> p in d.imageGroups)
    && (forall p :: p in d.imageGroups ==> d.imageGroups[p] != [])
  }

  /**
   * The `elif` branch for a name: a `DJI_*.jpg` file whose video prefix is
   * found (and non-empty, `if prefix:`) and whose frame number is found.
   */
  function ImageEntry(f: string): Option<(string, ImageFile)>
  {
    if IsDjiJpg(f) then
      match VideoPrefix(f)
      case None => None
      case Some(p) =>
        if p == [] then None
        else match FrameNumber(f)
          case None => None
          case Some(n) => Some((p, ImageFile(f, n)))
    else None
  }

  /** What one name of the listing does to the scan's state. */
  function Step(d: Discovery, f: string): Discovery
  {
    match SrtPrefix(f)
    case Some(p) =>
      d.(srtOrder := if p in d.srtFiles then d.srtOrder else d.srtOrder + [p],
         srtFiles := d.srtFiles[p := f])
    case None =>
      match ImageEntry(f)
      case None => d
      case Some((p, img)) =>
        var group := if p in d.imageGroups then d.imageGroups[p] else [];
        d.(imageOrder := if p in d.imageGroups then d.imageOrder else d.imageOrder + [p],
           imageGroups := d.imageGroups[p := group + [img]])
  }

  /** The state after scanning `names` from empty dictionaries. */
  function Scan(names: seq<string>): Discovery
  {
    if names == [] then Discovery([], map[], [], map[])
    else Step(Scan(names[..|names| - 1]), names[|names| - 1])
  }

  /** The `for f in sorted(os.listdir(...))` scan; `names` is the listing already sorted. */
  method DiscoverFiles(names: seq<string>) returns (d: Discovery)
    ensures d == Scan(names)
  {
    d := Discovery([], map[], [], map[]);
    var i := 0;
    while i < |names|
      invariant 0 <= i <= |names|
      invariant d == Scan(names[..i])
    {
      assert names[..i + 1][..i] == names[..i];
      d := FileName(d, names[i]);
      i := i + 1;
    }
    assert names[..i] == names;
  }

  /**
   * The body of the scan for one name `f`: the `if`/`elif` on its extension,
   * written as the loop executes it; `Step` is its specification.
   */
  method FileName(d: Discovery, f: string) returns (next: Discovery)
    ensures next == Step(d, f)
  {
    next := d;
    var srtPrefix := SrtPrefix(f);
    if srtPrefix.Some? {
      var prefix := srtPrefix.value;
      if prefix !in next.srtFiles {
        next := next.(srtOrder := next.srtOrder + [prefix]);
      }
      next := next.(srtFiles := next.srtFiles[prefix := f]);
    } else if IsDjiJpg(f) {
      var videoPrefix := VideoPrefix(f);
      if videoPrefix.Some? && videoPrefix.value != [] {
        var frameNum := FrameNumber(f);
        if frameNum.Some? {
          var prefix := videoPrefix.value;
          if prefix !in next.imageGroups {
            next := next.(imageOrder := next.imageOrder + [prefix], imageGroups := next.imageGroups[prefix := []]);
          }
          next := next.(imageGroups := next.imageGroups[prefix := next.imageGroups[prefix] + [ImageFile(f, frameNum.value)]]);
        }
      }
    }
  }

  /** Frame numbers never decrease along `s`. */
  predicate SortedByFrame(s: seq<ImageFile>)
  {
    forall i, j :: 0 <= i < j < |s| ==> s[i].frame <= s[j].frame
  }

  /** `x` placed after every element of `s` whose frame is not larger than its own. */
  function InsertByFrame(s: seq<ImageFile>, x: ImageFile): seq<ImageFile>
  {
    if s == [] || s[|s| - 1].frame <= x.frame then s + [x]
    else InsertByFrame(s[..|s| - 1], x) + [s[|s| - 1]]
  }

  /** `sorted(images, key=lambda x: x[1])`: a stable sort by frame number. */
  function SortByFrame(s: seq<ImageFile>): seq<ImageFile>
  {
    if s == [] then [] else InsertByFrame(SortByFrame(s[..|s| - 1]), s[|s| - 1])
  }

  /** One entry of `matched_groups`: its prefix, `'srt_file'` and `'images'`. */
  datatype Group = Group(prefix: string, srtFile: string, images: seq<ImageFile>)

  /**
   * `matched_groups` built from the keys `order` of `srt_files`: each key
   * that also names an image group, in the same order.
   */
  function Matched(order: seq<string>, srtFiles: map<string, string>,
                   imageGroups: map<string, seq<ImageFile>>): seq<Group>
    requires forall p :: p in order ==> p in srtFiles
  {
    if order == [] then []
    else
      var p := order[|order| - 1];
      var earlier := Matched(order[..|order| - 1], srtFiles, imageGroups);
      if p in imageGroups then earlier + [Group(p, srtFiles[p], SortByFrame(imageGroups[p]))]
      else earlier
  }

  /** The `for prefix in srt_files` loop that builds `matched_groups`. */
  method MatchGroups(d: Discovery) returns (matched: seq<Group>)
    requires Consistent(d)
    ensures matched == Matched(d.srtOrder, d.srtFiles, d.imageGroups)
  {
    matched := [];
    var i := 0;
    while i < |d.srtOrder|
      invariant 0 <= i <= |d.srtOrder|
      invariant matched == Matched(d.srtOrder[..i], d.srtFiles, d.imageGroups)
    {
      var prefix := d.srtOrder[i];
      assert d.srtOrder[..i + 1][..i] == d.srtOrder[..i];
      if prefix in d.imageGroups {
        matched := matched + [Group(prefix, d.srtFiles[prefix], SortByFrame(d.imageGroups[prefix]))];
      }
      i := i + 1;
    }
    assert d.srtOrder[..i] == d.srtOrder;
  }
}

module GroupingFacts {
  import opened Wrappers
  import opened FileNames
  import opened Grouping

  /** Each element of `xs` at its first occurrence, in order: the keys of a dictionary filled from `xs`. */
  function Distinct(xs: seq<string>): seq<string>
  {
    if xs == [] then []
    else
      var r := Distinct(xs[..|xs| - 1]);
      if xs[|xs| - 1] in r then r else r + [xs[|xs| - 1]]
  }

  lemma {:induction false} DistinctKeys(xs: seq<string>)
    ensures NoDup(Distinct(xs))
    ensures forall x :: x in Distinct(xs) <==> x in xs
  {
    if xs != [] {
      DistinctKeys(xs[..|xs| - 1]);
      assert xs == xs[..|xs| - 1] + [xs[|xs| - 1]];
    }
  }

  /** The prefixes of the subtitle files of the listing, one per file, in listing order. */
  function SrtPrefixes(names: seq<string>): seq<string>
  {
    if names == [] then []
    else
      var earlier := SrtPrefixes(names[..|names| - 1]);
      match SrtPrefix(names[|names| - 1])
      case Some(p) => earlier + [p]
      case None => earlier
  }

  /** The prefixes of the image files of the listing, one per file, in listing order. */
  function ImagePrefixes(names: seq<string>): seq<string>
  {
    if names == [] then []
    else
      var earlier := ImagePrefixes(names[..|names| - 1]);
      match ImageEntry(names[|names| - 1])
      case Some((p, _)) => earlier + [p]
      case None => earlier
  }

  /** The images of the listing filed under prefix `p`, in listing order. */
  function ImagesOf(names: seq<string>, p: string): seq<ImageFile>
  {
    if names == [] then []
    else
      var earlier := ImagesOf(names[..|names| - 1], p);
      match ImageEntry(names[|names| - 1])
      case Some((q, img)) => if q == p then earlier + [img] else earlier
      case None => earlier
  }

  /** A name ending in `.srt` never ends in `.jpg`: the `elif` never hides an image. */
  lemma SubtitleIsNoImage(f: string)
    requires SrtPrefix(f).Some?
    ensures ImageEntry(f).None?
  {
  }

  /**
   * The dictionaries the scan builds: `srt_files` and `image_groups` are
   * keyed by the distinct prefixes in order of first appearance, and the
   * group of a prefix holds its images in listing order.
   */
  lemma {:induction false} ScanIsDistinct(names: seq<string>)
    ensures Scan(names).srtOrder == Distinct(SrtPrefixes(names))
    ensures Scan(names).imageOrder == Distinct(ImagePrefixes(names))
    ensures forall p :: p in Scan(names).srtFiles <==> p in SrtPrefixes(names)
    ensures forall p :: p in Scan(names).imageGroups <==> p in ImagePrefixes(names)
  {
    if names != [] {
      var init, f := names[..|names| - 1], names[|names| - 1];
      ScanIsDistinct(init);
      DistinctKeys(SrtPrefixes(init));
      DistinctKeys(ImagePrefixes(init));
      if SrtPrefix(f).Some? {
        SubtitleIsNoImage(f);
      }
    }
  }

  /** The group the scan files under `p` is exactly `p`'s images in listing order; absent when there are none. */
  lemma {:induction false} ScanGroups(names: seq<string>, p: string)
    ensures p in Scan(names).imageGroups <==> ImagesOf(names, p) != []
    ensures p in Scan(names).imageGroups ==> Scan(names).imageGroups[p] == ImagesOf(names, p)
  {
    if names != [] {
      var f := names[|names| - 1];
      ScanGroups(names[..|names| - 1], p);
      if SrtPrefix(f).Some? {
        SubtitleIsNoImage(f);
      }
    }
  }

  /** `i` is the last position of the listing holding a subtitle file with prefix `p`. */
  predicate LastSrtAt(names: seq<string>, p: string, i: int)
  {
    0 <= i < |names| && SrtPrefix(names[i]) == Some(p)
    && forall j :: i < j < |names| ==> SrtPrefix(names[j]) != Some(p)
  }

  /** `srt_files[p]` is the last subtitle file of the listing with that prefix. */
  lemma {:induction false} ScanSrtFile(names: seq<string>, p: string, i: int)
    requires LastSrtAt(names, p, i)
    ensures p in Scan(names).srtFiles && Scan(names).srtFiles[p] == names[i]
  {
    var init, f := names[..|names| - 1], names[|names| - 1];
    if i < |names| - 1 {
      assert LastSrtAt(init, p, i);
      ScanSrtFile(init, p, i);
    }
  }

  /** The scan's dictionaries are always consistent. */
  lemma ScanConsistent(names: seq<string>)
    ensures Consistent(Scan(names))
  {
    var d := Scan(names);
    ScanIsDistinct(names);
    DistinctKeys(SrtPrefixes(names));
    DistinctKeys(ImagePrefixes(names));
    forall p | p in d.imageGroups
      ensures d.imageGroups[p] != []
    {
      ScanGroups(names, p);
    }
  }

  /** The elements of `s` whose frame number is `k`, in order. */
  function WithFrame(s: seq<ImageFile>, k: int): seq<ImageFile>
  {
    if s == [] then []
    else WithFrame(s[..|s| - 1], k) + (if s[|s| - 1].frame == k then [s[|s| - 1]] else [])
  }

  lemma {:induction false} WithFrameAppend(a: seq<ImageFile>, b: seq<ImageFile>, k: int)
    ensures WithFrame(a + b, k) == WithFrame(a, k) + WithFrame(b, k)
    decreases |b|
  {
    if b == [] {
      assert a + b == a;
    } else {
      assert (a + b)[..|a + b| - 1] == a + b[..|b| - 1];
      WithFrameAppend(a, b[..|b| - 1], k);
    }
  }

  /** Inserting adds exactly `x`. */
  lemma {:induction false} InsertByFrameMultiset(s: seq<ImageFile>, x: ImageFile)
    ensures multiset(InsertByFrame(s, x)) == multiset(s) + multiset{x}
    decreases |s|
  {
    if s != [] && s[|s| - 1].frame > x.frame {
      var init := s[..|s| - 1];
      assert s == init + [s[|s| - 1]];
      InsertByFrameMultiset(init, x);
    }
  }

  /** Inserting into a sorted group keeps it sorted. */
  lemma {:induction false} InsertByFrameSorted(s: seq<ImageFile>, x: ImageFile)
    requires SortedByFrame(s)
    ensures SortedByFrame(InsertByFrame(s, x))
    decreases |s|
  {
    if s != [] && s[|s| - 1].frame > x.frame {
      var init, last := s[..|s| - 1], s[|s| - 1];
      assert s == init + [last];
      InsertByFrameSorted(init, x);
      var t := InsertByFrame(init, x);
      InsertByFrameMultiset(init, x);
      forall i | 0 <= i < |t|
        ensures t[i].frame <= last.frame
      {
        assert t[i] in multiset(t);
        assert t[i] in multiset(init) || t[i] == x;
      }
    }
  }

  /** Inserting puts `x` after every image that has its frame number. */
  lemma {:induction false} InsertByFrameStable(s: seq<ImageFile>, x: ImageFile, k: int)
    ensures WithFrame(InsertByFrame(s, x), k) == WithFrame(s, k) + WithFrame([x], k)
    decreases |s|
  {
    if s == [] || s[|s| - 1].frame <= x.frame {
      WithFrameAppend(s, [x], k);
    } else {
      var init, last := s[..|s| - 1], s[|s| - 1];
      assert s == init + [last];
      InsertByFrameStable(init, x, k);
      var t := InsertByFrame(init, x);
      WithFrameAppend(t, [last], k);
      WithFrameAppend(init, [last], k);
      assert [x][..0] == [] && [last][..0] == [];
    }
  }

  /**
   * `sorted(..., key=lambda x: x[1])`: the result is ordered by frame
   * number, holds the same images, and keeps the listing order among images
   * with the same frame number (Python's sort is stable).
   */
  lemma {:induction false} SortByFrameFacts(s: seq<ImageFile>)
    ensures SortedByFrame(SortByFrame(s))
    ensures multiset(SortByFrame(s)) == multiset(s)
    ensures forall k :: WithFrame(SortByFrame(s), k) == WithFrame(s, k)
  {
    if s != [] {
      var init, last := s[..|s| - 1], s[|s| - 1];
      assert s == init + [last];
      SortByFrameFacts(init);
      InsertByFrameSorted(SortByFrame(init), last);
      InsertByFrameMultiset(SortByFrame(init), last);
      forall k
        ensures WithFrame(SortByFrame(s), k) == WithFrame(s, k)
      {
        InsertByFrameStable(SortByFrame(init), last, k);
        WithFrameAppend(init, [last], k);
      }
    }
  }

  /** The prefixes of the matched groups, in order. */
  function Prefixes(groups: seq<Group>): seq<string>
  {
    if groups == [] then [] else Prefixes(groups[..|groups| - 1]) + [groups[|groups| - 1].prefix]
  }

  /** The keys of `order` that `m` also has, in order. */
  function KeysIn(order: seq<string>, m: map<string, seq<ImageFile>>): seq<string>
  {
    if order == [] then []
    else KeysIn(order[..|order| - 1], m) + (if order[|order| - 1] in m then [order[|order| - 1]] else [])
  }

  lemma {:induction false} KeysInMembers(order: seq<string>, m: map<string, seq<ImageFile>>)
    ensures forall p :: p in KeysIn(order, m) <==> p in order && p in m
  {
    if order != [] {
      KeysInMembers(order[..|order| - 1], m);
      assert order == order[..|order| - 1] + [order[|order| - 1]];
    }
  }

  /**
   * `matched_groups` holds, in the order of `srt_files`, exactly the
   * prefixes that have both a subtitle file and images; each carries that
   * subtitle file and its images sorted by frame number.
   */
  lemma {:induction false} MatchedGroups(order: seq<string>, srtFiles: map<string, string>,
                                         imageGroups: map<string, seq<ImageFile>>)
    requires forall p :: p in order ==> p in srtFiles
    ensures Prefixes(Matched(order, srtFiles, imageGroups)) == KeysIn(order, imageGroups)
    ensures forall g :: g in Matched(order, srtFiles, imageGroups) ==>
              g.prefix in srtFiles && g.prefix in imageGroups && g.srtFile == srtFiles[g.prefix]
              && g.images == SortByFrame(imageGroups[g.prefix])
  {
    if order != [] {
      var init := order[..|order| - 1];
      assert forall p :: p in init ==> p in order;
      MatchedGroups(init, srtFiles, imageGroups);
      var gs := Matched(order, srtFiles, imageGroups);
      var earlier := Matched(init, srtFiles, imageGroups);
      if order[|order| - 1] in imageGroups {
        assert gs[..|gs| - 1] == earlier;
      } else {
        assert gs == earlier;
      }
    }
  }

  /** No group is matched exactly when no prefix has both a subtitle file and images. */
  lemma NothingMatched(d: Discovery)
    requires Consistent(d)
    ensures Matched(d.srtOrder, d.srtFiles, d.imageGroups) == []
            <==> forall p :: p in d.srtFiles ==> p !in d.imageGroups
  {
    var gs := Matched(d.srtOrder, d.srtFiles, d.imageGroups);
    MatchedGroups(d.srtOrder, d.srtFiles, d.imageGroups);
    KeysInMembers(d.srtOrder, d.imageGroups);
    PrefixesEmpty(gs);
  }

  lemma PrefixesEmpty(groups: seq<Group>)
    ensures Prefixes(groups) == [] <==> groups == []
  {
  }
}
