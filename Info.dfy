/** getInfoGin and getInfoPB: the summary of a video's formats, subtitles
    and thumbnails returned to the page before a download. */
module Info {
  import opened Wrappers
  import opened Strings
  import opened Decimal
  import opened Cookies
  import opened Worker

  /* ------------------------- what yt-dlp -J yields ------------------------- */

  /** One entry of `formats`. `Abr` is a float64; the model keeps whether it
      is positive and its `%.0f` rendering. */
  datatype Format = Format(vcodec: string, acodec: string, height: int, abrPositive: bool, abrLabel: string)

  /** The decoded yt-dlp JSON; `subtitles` holds the keys of its map. */
  datatype YtInfo = YtInfo(
    title: string,
    thumbnail: string,
    thumbnails: seq<string>,
    formats: seq<Format>,
    subtitles: set<string>)

  predicate IsVideo(f: Format) { f.vcodec != "none" && f.height > 0 }

  predicate IsAudioOnly(f: Format) { f.acodec != "none" && f.vcodec == "none" && f.abrPositive }

  /** `vset`: every height of a video format. */
  function Heights(fs: seq<Format>): set<int>
  {
    set i | 0 <= i < |fs| && IsVideo(fs[i]) :: fs[i].height
  }

  /** `aset`: every bitrate label of an audio-only format. */
  function AudioLabels(fs: seq<Format>): set<string>
  {
    set i | 0 <= i < |fs| && IsAudioOnly(fs[i]) :: fs[i].abrLabel
  }

  lemma HeightsSnoc(fs: seq<Format>, f: Format)
    ensures Heights(fs + [f]) == Heights(fs) + (if IsVideo(f) then {f.height} else {})
  {
    var g := fs + [f];
    assert forall i :: 0 <= i < |fs| ==> g[i] == fs[i];
    assert g[|fs|] == f;
  }

  lemma AudioLabelsSnoc(fs: seq<Format>, f: Format)
    ensures AudioLabels(fs + [f]) == AudioLabels(fs) + (if IsAudioOnly(f) then {f.abrLabel} else {})
  {
    var g := fs + [f];
    assert forall i :: 0 <= i < |fs| ==> g[i] == fs[i];
    assert g[|fs|] == f;
  }

  /** The loop over `yt.Formats` filling `vset` and `aset`. */
  method CollectQualities(fs: seq<Format>) returns (vset: set<int>, aset: set<string>)
    ensures vset == Heights(fs) && aset == AudioLabels(fs)
    ensures forall h :: h in vset ==> h > 0
  {
    vset, aset := {}, {};
    for i := 0 to |fs|
      invariant vset == Heights(fs[..i]) && aset == AudioLabels(fs[..i])
    {
      var f := fs[i];
      assert fs[..i + 1] == fs[..i] + [f];
      HeightsSnoc(fs[..i], f);
      AudioLabelsSnoc(fs[..i], f);
      if f.vcodec != "none" && f.height > 0 {
        vset := vset + {f.height};
      }
      if f.acodec != "none" && f.vcodec == "none" && f.abrPositive {
        aset := aset + {f.abrLabel};
      }
    }
    assert fs[..|fs|] == fs;
  }

  /* -------------------------- map keys to a slice -------------------------- */

  predicate Distinct<T(==)>(s: seq<T>)
  {
    forall i, j :: 0 <= i < j < |s| ==> s[i] != s[j]
  }

  /** `for k := range m { out = append(out, k) }`: every key once, in the
      unspecified order a Go map is iterated in. */
  method Elements<T(==,0)>(s: set<T>) returns (a: array<T>)
    ensures fresh(a)
    ensures a.Length == |s|
    ensures forall x :: x in s <==> x in a[..]
    ensures Distinct(a[..])
  {
    a := new T[|s|];
    var rest := s;
    var i := 0;
    while rest != {}
      invariant 0 <= i <= a.Length && i + |rest| == |s|
      invariant rest <= s
      invariant forall x :: x in s <==> x in rest || x in a[..i]
      invariant forall k :: 0 <= k < i ==> a[k] !in rest
      invariant Distinct(a[..i])
      decreases |rest|
    {
      var x :| x in rest;
      ghost var done := a[..i];
      a[i] := x;
      assert a[..i + 1] == done + [x];
      rest := rest - {x};
      i := i + 1;
    }
    assert a[..i] == a[..];
  }

  /* ------------------------------- sorting -------------------------------- */

  predicate Descending(s: seq<int>) { forall i, j :: 0 <= i < j < |s| ==> s[i] >= s[j] }

  predicate StrictlyDescending(s: seq<int>) { forall i, j :: 0 <= i < j < |s| ==> s[i] > s[j] }

  /** Inserting `s[j]` into the descending `s[..i + 1]`: everything but
      the moving element is in order, and the moving element is greater
      than everything after it. */
  ghost predicate SiftingDown(s: seq<int>, j: nat, i: nat)
  {
    && j <= i < |s|
    && (forall p, q :: 0 <= p < q <= i && p != j && q != j ==> s[p] >= s[q])
    && (forall q :: j < q <= i ==> s[j] > s[q])
  }

  lemma SiftDownStart(s: seq<int>, i: nat)
    requires i < |s| && Descending(s[..i])
    ensures SiftingDown(s, i, i)
  {
    assert forall p :: 0 <= p < i ==> s[..i][p] == s[p];
  }

  lemma SiftDownStep(s: seq<int>, j: nat, i: nat)
    requires SiftingDown(s, j, i) && j > 0 && s[j - 1] < s[j]
    ensures SiftingDown(Swapped(s, j), j - 1, i)
  {
  }

  lemma SiftDownDone(s: seq<int>, j: nat, i: nat)
    requires SiftingDown(s, j, i) && (j == 0 || s[j - 1] >= s[j])
    ensures Descending(s[..i + 1])
  {
    assert forall p :: 0 <= p <= i ==> s[..i + 1][p] == s[p];
  }

  /** sort.Sort(sort.Reverse(sort.IntSlice(a))), as an insertion sort by
      adjacent swaps. */
  method SortDescending(a: array<int>)
    modifies a
    ensures Descending(a[..])
    ensures multiset(a[..]) == old(multiset(a[..]))
  {
    var i := 0;
    while i < a.Length
      invariant 0 <= i <= a.Length
      invariant Descending(a[..i])
      invariant multiset(a[..]) == old(multiset(a[..]))
    {
      var j := i;
      SiftDownStart(a[..], i);
      while j > 0 && a[j - 1] < a[j]
        invariant SiftingDown(a[..], j, i)
        invariant multiset(a[..]) == old(multiset(a[..]))
      {
        SiftDownStep(a[..], j, i);
        ghost var before := a[..];
        a[j - 1], a[j] := a[j], a[j - 1];
        assert a[..] == Swapped(before, j);
        SwappedPermutes(before, j);
        j := j - 1;
      }
      SiftDownDone(a[..], j, i);
      i := i + 1;
    }
    assert a[..a.Length] == a[..];
  }

  /** `a` is in non-decreasing StrLess order. */
  predicate Ascending(s: seq<string>) { forall i, j :: 0 <= i < j < |s| ==> !StrLess(s[j], s[i]) }

  predicate StrictlyAscending(s: seq<string>) { forall i, j :: 0 <= i < j < |s| ==> StrLess(s[i], s[j]) }

  /** Not-less is transitive. */
  lemma NotLessTransitive(a: string, b: string, c: string)
    requires !StrLess(b, a) && !StrLess(c, b)
    ensures !StrLess(c, a)
  {
    StrLessTotal(b, c);
    if StrLess(c, a) && StrLess(b, c) {
      StrLessTransitive(b, c, a);
    }
  }

  /** Inserting `s[j]` into the sorted `s[..i + 1]`: everything but the
      moving element is in order, and the moving element is less than
      everything after it. */
  ghost predicate Sifting(s: seq<string>, j: nat, i: nat)
  {
    && j <= i < |s|
    && (forall p, q :: 0 <= p < q <= i && p != j && q != j ==> !StrLess(s[q], s[p]))
    && (forall q :: j < q <= i ==> StrLess(s[j], s[q]))
  }

  function Swapped<T>(s: seq<T>, j: nat): seq<T>
    requires 0 < j < |s|
  {
    s[j - 1 := s[j]][j := s[j - 1]]
  }

  /** A swap keeps the elements. */
  lemma SwappedPermutes<T>(s: seq<T>, j: nat)
    requires 0 < j < |s|
    ensures multiset(Swapped(s, j)) == multiset(s)
  {
  }

  lemma SiftStart(s: seq<string>, i: nat)
    requires i < |s| && Ascending(s[..i])
    ensures Sifting(s, i, i)
  {
    assert forall p :: 0 <= p < i ==> s[..i][p] == s[p];
  }

  lemma SiftStep(s: seq<string>, j: nat, i: nat)
    requires Sifting(s, j, i) && j > 0 && StrLess(s[j], s[j - 1])
    ensures Sifting(Swapped(s, j), j - 1, i)
  {
  }

  lemma SiftDone(s: seq<string>, j: nat, i: nat)
    requires Sifting(s, j, i) && (j == 0 || !StrLess(s[j], s[j - 1]))
    ensures Ascending(s[..i + 1])
  {
    forall p | 0 <= p < j - 1
      ensures !StrLess(s[j], s[p])
    {
      NotLessTransitive(s[p], s[j - 1], s[j]);
    }
    forall q | j < q <= i
      ensures !StrLess(s[q], s[j])
    {
      StrLessAsymmetric(s[j], s[q]);
    }
    assert forall p :: 0 <= p <= i ==> s[..i + 1][p] == s[p];
  }

  /** sort.Strings(a), as an insertion sort by adjacent swaps. */
  method SortStrings(a: array<string>)
    modifies a
    ensures Ascending(a[..])
    ensures multiset(a[..]) == old(multiset(a[..]))
  {
    var i := 0;
    while i < a.Length
      invariant 0 <= i <= a.Length
      invariant Ascending(a[..i])
      invariant multiset(a[..]) == old(multiset(a[..]))
    {
      var j := i;
      SiftStart(a[..], i);
      while j > 0 && StrLess(a[j], a[j - 1])
        invariant Sifting(a[..], j, i)
        invariant multiset(a[..]) == old(multiset(a[..]))
      {
        SiftStep(a[..], j, i);
        ghost var before := a[..];
        a[j - 1], a[j] := a[j], a[j - 1];
        assert a[..] == Swapped(before, j);
        SwappedPermutes(before, j);
        j := j - 1;
      }
      SiftDone(a[..], j, i);
      i := i + 1;
    }
    assert a[..a.Length] == a[..];
  }

  /* ------------------------ order does not matter ------------------------- */

  lemma {:induction false} DistinctCount<T>(s: seq<T>, x: T)
    requires Distinct(s)
    ensures multiset(s)[x] <= 1
  {
    if s != [] {
      assert s == [s[0]] + s[1..];
      assert Distinct(s[1..]);
      DistinctCount(s[1..], x);
      if x == s[0] {
        assert x !in s[1..];
      }
    }
  }

  lemma RepeatCount<T>(s: seq<T>, i: nat, j: nat)
    requires i < j < |s| && s[i] == s[j]
    ensures multiset(s)[s[i]] >= 2
  {
    assert s == s[..j] + [s[j]] + s[j + 1..];
    assert s[i] in s[..j];
  }

  /** A permutation of a sequence without repeats has none either. */
  lemma DistinctPermutation<T>(a: seq<T>, b: seq<T>)
    requires Distinct(a) && multiset(a) == multiset(b)
    ensures Distinct(b)
  {
    forall i, j | 0 <= i < j < |b|
      ensures b[i] != b[j]
    {
      if b[i] == b[j] {
        RepeatCount(b, i, j);
        DistinctCount(a, b[i]);
      }
    }
  }

  /** A strictly descending sequence is fixed by its elements. */
  lemma {:induction false} DescendingUnique(xs: seq<int>, ys: seq<int>)
    requires StrictlyDescending(xs) && StrictlyDescending(ys)
    requires forall x :: x in xs <==> x in ys
    ensures xs == ys
  {
    if xs != [] {
      assert xs[0] in xs;
    }
    if ys != [] {
      assert ys[0] in ys;
    }
    if xs != [] && ys != [] {
      assert xs[0] in ys && ys[0] in xs;
      assert xs[0] == ys[0];
      forall x
        ensures x in xs[1..] <==> x in ys[1..]
      {
        assert x in xs[1..] <==> x in xs && x != xs[0];
        assert x in ys[1..] <==> x in ys && x != ys[0];
      }
      DescendingUnique(xs[1..], ys[1..]);
      assert xs == [xs[0]] + xs[1..] && ys == [ys[0]] + ys[1..];
    }
  }

  /** A strictly ascending sequence of strings is fixed by its elements. */
  lemma {:induction false} AscendingUnique(xs: seq<string>, ys: seq<string>)
    requires StrictlyAscending(xs) && StrictlyAscending(ys)
    requires forall x :: x in xs <==> x in ys
    ensures xs == ys
  {
    if xs != [] {
      assert xs[0] in xs;
    }
    if ys != [] {
      assert ys[0] in ys;
    }
    if xs != [] && ys != [] {
      assert xs[0] in ys && ys[0] in xs;
      if xs[0] != ys[0] {
        var i :| 0 <= i < |ys| && ys[i] == xs[0];
        var j :| 0 <= j < |xs| && xs[j] == ys[0];
        assert StrLess(ys[0], xs[0]) && StrLess(xs[0], ys[0]);
        StrLessAsymmetric(ys[0], xs[0]);
      }
      forall x
        ensures x in xs[1..] <==> x in ys[1..]
      {
        assert x in xs[1..] <==> x in xs && x != xs[0] by {
          if x in xs[1..] {
            var k :| 1 <= k < |xs| && xs[k] == x;
            StrLessIrreflexive(x);
          }
        }
        assert x in ys[1..] <==> x in ys && x != ys[0] by {
          if x in ys[1..] {
            var k :| 1 <= k < |ys| && ys[k] == x;
            StrLessIrreflexive(x);
          }
        }
      }
      AscendingUnique(xs[1..], ys[1..]);
      assert xs == [xs[0]] + xs[1..] && ys == [ys[0]] + ys[1..];
    }
  }

  lemma AscendingDistinct(s: seq<string>)
    requires Ascending(s) && Distinct(s)
    ensures StrictlyAscending(s)
  {
    forall i, j | 0 <= i < j < |s|
      ensures StrLess(s[i], s[j])
    {
      StrLessTotal(s[i], s[j]);
    }
  }

  /** `hs` lists the heights of `s`, highest first, each once. */
  ghost predicate HeightList(hs: seq<int>, s: set<int>)
  {
    StrictlyDescending(hs) && forall x :: x in hs <==> x in s
  }

  /** `xs` lists the strings of `s` in sort.Strings order, each once. */
  ghost predicate StringList(xs: seq<string>, s: set<string>)
  {
    StrictlyAscending(xs) && forall x :: x in xs <==> x in s
  }

  /** The keys of a set, gathered in any order and then sorted, come out
      as its one sorted list. */
  method SortedHeights(s: set<int>) returns (hs: seq<int>)
    ensures HeightList(hs, s)
  {
    var a := Elements(s);
    ghost var gathered := a[..];
    SortDescending(a);
    hs := a[..];
    DistinctPermutation(gathered, hs);
    forall x
      ensures x in hs <==> x in s
    {
      assert x in hs <==> x in multiset(hs);
      assert x in gathered <==> x in multiset(gathered);
    }
  }

  method SortedStrings(s: set<string>) returns (xs: seq<string>)
    ensures StringList(xs, s)
  {
    var a := Elements(s);
    ghost var gathered := a[..];
    SortStrings(a);
    xs := a[..];
    DistinctPermutation(gathered, xs);
    AscendingDistinct(xs);
    forall x
      ensures x in xs <==> x in s
    {
      assert x in xs <==> x in multiset(xs);
      assert x in gathered <==> x in multiset(gathered);
    }
  }

  /* ------------------------------ the reply ------------------------------- */

  /** `infoResp` */
  datatype InfoResp = InfoResp(
    title: string,
    thumbURL: string,
    videoQualities: seq<string>,
    audioQualities: seq<string>,
    subLangs: seq<string>)

  /** `fmt.Sprintf("%d", h)` for each height. */
  function Rendered(hs: seq<int>): (r: seq<string>)
    ensures |r| == |hs|
  {
    if hs == [] then [] else [IntToString(hs[0])] + Rendered(hs[1..])
  }

  /** Every rendered height reads back as the height. */
  lemma {:induction false} RenderedReadBack(hs: seq<int>)
    ensures forall i :: 0 <= i < |hs| ==> ParseInt(Rendered(hs)[i]) == Some(hs[i])
  {
    if hs != [] {
      IntToStringRoundTrip(hs[0]);
      RenderedReadBack(hs[1..]);
      assert forall i :: 1 <= i < |hs| ==> Rendered(hs)[i] == Rendered(hs[1..])[i - 1];
    }
  }

  lemma {:induction false} RenderedAppend(hs: seq<int>, h: int)
    ensures Rendered(hs + [h]) == Rendered(hs) + [IntToString(h)]
  {
    if hs != [] {
      assert (hs + [h])[1..] == hs[1..] + [h];
      RenderedAppend(hs[1..], h);
    }
  }

  /** The loop appending each rendered height to `resp.VideoQualities`. */
  method RenderHeights(hs: seq<int>) returns (qs: seq<string>)
    ensures qs == Rendered(hs)
  {
    qs := [];
    for i := 0 to |hs|
      invariant qs == Rendered(hs[..i])
    {
      RenderedAppend(hs[..i], hs[i]);
      assert hs[..i + 1] == hs[..i] + [hs[i]];
      qs := qs + [IntToString(hs[i])];
    }
    assert hs[..|hs|] == hs;
  }

  /** The last thumbnail's URL, or the `thumbnail` field when the list is empty. */
  function ChooseThumb(thumbnail: string, thumbnails: seq<string>): (r: string)
    ensures thumbnails == [] ==> r == thumbnail
    ensures thumbnails != [] ==> r == thumbnails[|thumbnails| - 1]
  {
    if |thumbnails| > 0 then thumbnails[|thumbnails| - 1] else thumbnail
  }

  /** `r` is what getInfo answers for `y`: its title, the chosen thumbnail,
      the video heights highest first as decimal text, the audio bitrate
      labels and the subtitle languages in sort.Strings order, each once. */
  ghost predicate Summarizes(y: YtInfo, r: InfoResp)
  {
    && r.title == y.title
    && r.thumbURL == ChooseThumb(y.thumbnail, y.thumbnails)
    && (exists hs :: HeightList(hs, Heights(y.formats)) && r.videoQualities == Rendered(hs))
    && StringList(r.audioQualities, AudioLabels(y.formats))
    && StringList(r.subLangs, y.subtitles)
  }

  /** The summary does not depend on the order Go iterates its maps in:
      there is only one. */
  lemma SummaryUnique(y: YtInfo, r1: InfoResp, r2: InfoResp)
    requires Summarizes(y, r1) && Summarizes(y, r2)
    ensures r1 == r2
  {
    var hs1 :| HeightList(hs1, Heights(y.formats)) && r1.videoQualities == Rendered(hs1);
    var hs2 :| HeightList(hs2, Heights(y.formats)) && r2.videoQualities == Rendered(hs2);
    DescendingUnique(hs1, hs2);
    AscendingUnique(r1.audioQualities, r2.audioQualities);
    AscendingUnique(r1.subLangs, r2.subLangs);
  }

  /** Every video quality offered is the decimal text of a height some
      video format has, and no height is offered twice. */
  lemma VideoQualitiesFromFormats(y: YtInfo, r: InfoResp)
    requires Summarizes(y, r)
    ensures forall i :: 0 <= i < |r.videoQualities| ==>
      exists k :: 0 <= k < |y.formats| && IsVideo(y.formats[k]) && ParseInt(r.videoQualities[i]) == Some(y.formats[k].height)
    ensures forall i, j :: 0 <= i < j < |r.videoQualities| ==> r.videoQualities[i] != r.videoQualities[j]
  {
    var hs :| HeightList(hs, Heights(y.formats)) && r.videoQualities == Rendered(hs);
    RenderedReadBack(hs);
    forall i | 0 <= i < |hs|
      ensures exists k :: 0 <= k < |y.formats| && IsVideo(y.formats[k]) && ParseInt(r.videoQualities[i]) == Some(y.formats[k].height)
    {
      assert hs[i] in Heights(y.formats);
    }
    forall i, j | 0 <= i < j < |hs|
      ensures r.videoQualities[i] != r.videoQualities[j]
    {
      assert ParseInt(r.videoQualities[i]) != ParseInt(r.videoQualities[j]);
    }
  }

  /** Everything after the decode: the sets, the sorted lists, the thumbnail. */
  method Summarize(y: YtInfo) returns (r: InfoResp)
    ensures Summarizes(y, r)
  {
    var vset, aset := CollectQualities(y.formats);
    var videoQ := SortedHeights(vset);
    var audioQ := SortedStrings(aset);
    var langs := SortedStrings(y.subtitles);
    var thumb := y.thumbnail;
    if |y.thumbnails| > 0 {
      thumb := y.thumbnails[|y.thumbnails| - 1];
    }
    var qs := RenderHeights(videoQ);
    r := InfoResp(y.title, thumb, qs, audioQ, langs);
    assert HeightList(videoQ, Heights(y.formats)) && r.videoQualities == Rendered(videoQ);
  }

  /* ------------------------------ getInfo -------------------------------- */

  /** The arguments of the `yt-dlp -J` call. */
  function InfoArgs(cookieFile: string, url: string): seq<string>
  {
    ["-J", "--no-warnings", "--skip-download"] + CookieArgs(cookieFile) + [url]
  }

  /** The URL comes last, right after the cookie file when there is one. */
  lemma InfoArgsShape(cookieFile: string, url: string)
    ensures var a := InfoArgs(cookieFile, url);
      && a[..3] == ["-J", "--no-warnings", "--skip-download"]
      && a[|a| - 1] == url
      && (cookieFile != "" <==> |a| == 6)
      && (cookieFile != "" ==> a[3] == "--cookies" && a[4] == cookieFile)
  {
  }

  /** Building the argument list by appends. */
  method InfoCommand(cookieFile: string, url: string) returns (a: seq<string>)
    ensures a == InfoArgs(cookieFile, url)
  {
    a := ["-J", "--no-warnings", "--skip-download"];
    if cookieFile != "" {
      a := a + ["--cookies", cookieFile];
    }
    a := a + [url];
  }

  /** What getInfo meets outside: the decode of the pasted cookies and the
      write of their file, then yt-dlp's error and combined output, then the
      decode of that output. */
  datatype InfoWorld = InfoWorld(
    decodedCookies: Result<seq<Cookie>>,
    writeErr: Option<string>,
    runErr: Option<string>,
    out: string,
    decoded: Result<YtInfo>)

  datatype InfoReply = InfoFail(status: int, message: string) | InfoOk(resp: InfoResp)

  /** getInfoGin and getInfoPB, on the temporary directory `tmpDir`; also
      returns the arguments yt-dlp was run with, None when it was not run. */
  method GetInfo(url: string, rawCookies: string, tmpDir: string, w: InfoWorld)
    returns (reply: InfoReply, args: Option<seq<string>>)
    ensures url == "" ==> reply == InfoFail(400, "url requerida") && args == None
    ensures var prep := Prepare(rawCookies, tmpDir, w.decodedCookies, w.writeErr);
      && (url != "" && prep.PrepError? ==> reply == InfoFail(400, prep.message) && args == None)
      && (url != "" && !prep.PrepError? ==> args == Some(InfoArgs(PathOf(prep), url)))
      && (url != "" && !prep.PrepError? && w.runErr.Some? ==>
            reply == InfoFail(400, ErrorWithOutput(w.runErr.value, w.out)))
      && (url != "" && !prep.PrepError? && w.runErr.None? && w.decoded.Fail? ==>
            reply == InfoFail(500, w.decoded.error))
      && (url != "" && !prep.PrepError? && w.runErr.None? && w.decoded.Ok? ==>
            reply.InfoOk? && Summarizes(w.decoded.value, reply.resp))
  {
    if url == "" {
      return InfoFail(400, "url requerida"), None;
    }
    var prep := PrepareCookieFile(rawCookies, tmpDir, w.decodedCookies, w.writeErr);
    if prep.PrepError? {
      return InfoFail(400, prep.message), None;
    }
    var a := InfoCommand(PathOf(prep), url);
    args := Some(a);
    if w.runErr.Some? {
      return InfoFail(400, ErrorWithOutput(w.runErr.value, w.out)), args;
    }
    if w.decoded.Fail? {
      return InfoFail(500, w.decoded.error), args;
    }
    var resp := Summarize(w.decoded.value);
    return InfoOk(resp), args;
  }
}
