/** parseProgress: yt-dlp's output, line by line, turned into stage and
    percent updates of one job. The two regular expressions
      progressRe = (\d{1,3}(?:\.\d+)?)%
      destRe     = Destination: .*\.([a-z0-9]+)
    are written out by hand with Go's leftmost-first matching, each next to
    a declarative statement of what a match is. */
module Progress {
  import opened Wrappers
  import opened Strings
  import opened Decimal
  import opened Jobs

  const VideoStage := "Descargando video\U{2026}"
  const AudioStage := "Descargando audio\U{2026}"
  const MergeStage := "Combinando (FFmpeg)\U{2026}"

  /* ---------------------------- progressRe ---------------------------- */

  /** The number of decimal digits in a row from index `i`. */
  function DigitRun(s: string, i: nat): (n: nat)
    requires i <= |s|
    ensures i + n <= |s|
    ensures forall k :: i <= k < i + n ==> IsDigit(s[k])
    ensures i + n == |s| || !IsDigit(s[i + n])
    decreases |s| - i
  {
    if i < |s| && IsDigit(s[i]) then 1 + DigitRun(s, i + 1) else 0
  }

  lemma DigitRunIs(s: string, i: nat, n: nat)
    requires i + n <= |s|
    requires forall k :: i <= k < i + n ==> IsDigit(s[k])
    requires i + n == |s| || !IsDigit(s[i + n])
    ensures DigitRun(s, i) == n
  {
  }

  /** `t` is a whole progressRe match whose integer part has `k` digits. */
  ghost predicate ProgressTokenWith(t: string, k: nat)
  {
    && 1 <= k < |t|
    && AllDigits(t[..k])
    && (|| t[k..] == "%"
        || (t[k] == '.' && k + 2 < |t| && AllDigits(t[k + 1..|t| - 1]) && t[|t| - 1] == '%'))
  }

  /** `t` is in the language of \d{1,3}(?:\.\d+)?% */
  ghost predicate IsProgressToken(t: string)
  {
    ProgressTokenWith(t, 1) || ProgressTokenWith(t, 2) || ProgressTokenWith(t, 3)
  }

  /** progressRe matches `s[i..e]`. */
  ghost predicate ProgressAt(s: string, i: nat, e: nat)
  {
    i <= e <= |s| && IsProgressToken(s[i..e])
  }

  /** The end of the progressRe match starting at `i`, if there is one.
      Fewer integer digits than the run offers leave a digit where `%` or
      `.` must be, so only the whole run (when it has at most 3) can match. */
  function ProgressMatchAt(s: string, i: nat): (e: Option<nat>)
    requires i <= |s|
    ensures e.Some? ==> i < e.value <= |s|
  {
    var k := DigitRun(s, i);
    if k < 1 || 3 < k || i + k == |s| then None
    else if s[i + k] == '%' then Some(i + k + 1)
    else if s[i + k] != '.' then None
    else
      var f := DigitRun(s, i + k + 1);
      if 1 <= f && i + k + 1 + f < |s| && s[i + k + 1 + f] == '%' then Some(i + k + 2 + f) else None
  }

  lemma ProgressMatchAtSound(s: string, i: nat)
    requires i <= |s| && ProgressMatchAt(s, i).Some?
    ensures ProgressAt(s, i, ProgressMatchAt(s, i).value)
  {
    var e := ProgressMatchAt(s, i).value;
    var k := DigitRun(s, i);
    var t := s[i..e];
    assert t[..k] == s[i..i + k];
    if s[i + k] == '%' {
      assert t[k..] == "%";
    } else {
      var f := DigitRun(s, i + k + 1);
      assert t[k + 1..|t| - 1] == s[i + k + 1..i + k + 1 + f];
    }
    assert ProgressTokenWith(t, k);
  }

  /** The characters of a slice are those of the string. */
  lemma AllDigitsSlice(s: string, lo: nat, hi: nat)
    requires lo <= hi <= |s| && AllDigits(s[lo..hi])
    ensures forall x :: lo <= x < hi ==> IsDigit(s[x])
  {
    forall x | lo <= x < hi ensures IsDigit(s[x]) {
      assert s[lo..hi][x - lo] == s[x];
    }
  }

  /** The integer part of a match is the whole digit run at its start. */
  lemma IntegerDigits(s: string, i: nat, e: nat, k: nat)
    requires i <= e <= |s| && ProgressTokenWith(s[i..e], k)
    ensures i + k < e && DigitRun(s, i) == k && s[i + k] == s[i..e][k]
  {
    var t := s[i..e];
    assert t[..k] == s[i..i + k];
    AllDigitsSlice(s, i, i + k);
    if t[k..] == "%" {
      assert t[k] == t[k..][0];
    }
    DigitRunIs(s, i, k);
  }

  /** After the dot of a match, its fraction is the whole digit run up to the `%`. */
  lemma FractionDigits(s: string, i: nat, e: nat, k: nat)
    requires i <= e <= |s| && ProgressTokenWith(s[i..e], k) && s[i..e][k] == '.'
    ensures e - i - k - 2 >= 1 && DigitRun(s, i + k + 1) == e - i - k - 2 && s[e - 1] == '%'
  {
    var t := s[i..e];
    assert t[k..][0] == '.';
    assert t[k..] != "%";
    assert k + 2 < |t| && |t| == e - i;
    var f := |t| - k - 2;
    AllDigitsSlice(t, k + 1, |t| - 1);
    assert forall x :: i + k + 1 <= x < e - 1 ==> s[x] == t[x - i];
    assert s[i + k + 1 + f] == t[|t| - 1];
    DigitRunIs(s, i + k + 1, f);
  }

  lemma ProgressMatchAtComplete(s: string, i: nat, e: nat)
    requires ProgressAt(s, i, e)
    ensures ProgressMatchAt(s, i) == Some(e)
  {
    var t := s[i..e];
    var k: nat := if ProgressTokenWith(t, 1) then 1 else if ProgressTokenWith(t, 2) then 2 else 3;
    IntegerDigits(s, i, e, k);
    if t[k] == '.' {
      FractionDigits(s, i, e, k);
    } else {
      assert t[k..] == "%";
    }
  }

  /** The match starting at a given index is unique, so leftmost-first and
      leftmost-longest agree: the leftmost match is the match. */
  lemma ProgressMatchUnique(s: string, i: nat, e1: nat, e2: nat)
    requires ProgressAt(s, i, e1) && ProgressAt(s, i, e2)
    ensures e1 == e2
  {
    ProgressMatchAtComplete(s, i, e1);
    ProgressMatchAtComplete(s, i, e2);
  }

  /** The leftmost progressRe match at or after `i`, as (start, end). */
  function FindProgressFrom(s: string, i: nat): (r: Option<(nat, nat)>)
    requires i <= |s|
    decreases |s| - i
  {
    var m := ProgressMatchAt(s, i);
    if m.Some? then Some((i, m.value))
    else if i == |s| then None
    else FindProgressFrom(s, i + 1)
  }

  lemma {:induction false} FindProgressFromCorrect(s: string, i: nat)
    requires i <= |s|
    ensures FindProgressFrom(s, i).Some? ==>
      var (b, e) := FindProgressFrom(s, i).value;
      && i <= b && ProgressAt(s, b, e)
      && forall b': nat, e': nat :: i <= b' < b ==> !ProgressAt(s, b', e')
    ensures FindProgressFrom(s, i).None? ==>
      forall b': nat, e': nat :: i <= b' ==> !ProgressAt(s, b', e')
    decreases |s| - i
  {
    var m := ProgressMatchAt(s, i);
    if m.Some? {
      ProgressMatchAtSound(s, i);
    } else {
      forall e': nat | ProgressAt(s, i, e') ensures false {
        ProgressMatchAtComplete(s, i, e');
      }
      if i < |s| {
        FindProgressFromCorrect(s, i + 1);
      }
    }
  }

  /** progressRe.FindSubmatch: the leftmost match of the whole line. */
  function FindProgress(s: string): (r: Option<(nat, nat)>)
    ensures r.Some? ==> ProgressAt(s, r.value.0, r.value.1)
    ensures r.Some? ==> forall b': nat, e': nat :: b' < r.value.0 ==> !ProgressAt(s, b', e')
    ensures r.None? ==> forall b': nat, e': nat :: !ProgressAt(s, b', e')
  {
    FindProgressFromCorrect(s, 0);
    FindProgressFrom(s, 0)
  }

  /** The integer part of a match: its first 1 to 3 characters, all digits,
      ending where the `.` or the `%` stands. */
  lemma IntegerPart(s: string, b: nat, e: nat)
    requires ProgressAt(s, b, e)
    ensures var k := DigitRun(s, b);
      && 1 <= k <= 3 && b + k < e && s[b + k] in ".%"
      && AllDigits(s[b..b + k])
  {
    ProgressMatchAtComplete(s, b, e);
    var k := DigitRun(s, b);
    var part := s[b..b + k];
    assert forall x :: 0 <= x < k ==> part[x] == s[b + x];
  }

  /** The percent a line carries: `int(ParseFloat(m[1]))`, the integer part of
      the leftmost match; never more than 999, and not clamped to 100. */
  function LinePercent(line: string): (r: Option<int>)
    ensures r.Some? <==> exists b: nat, e: nat :: ProgressAt(line, b, e)
    ensures r.Some? ==> 0 <= r.value <= 999
  {
    match FindProgress(line)
    case None => None
    case Some((b, e)) =>
      IntegerPart(line, b, e);
      var k := DigitRun(line, b);
      ThreeDigitsBound(line[b..b + k]);
      Some(DigitsValue(line[b..b + k]))
  }

  /** The percent is the value of the decimal digits that open the leftmost
      match, up to its `.` or `%`. */
  lemma LinePercentValue(line: string)
    requires FindProgress(line).Some?
    ensures var (b, e) := FindProgress(line).value;
      var k := DigitRun(line, b);
      && 1 <= k <= 3 && b + k < e && line[b + k] in ".%"
      && AllDigits(line[b..b + k]) && LinePercent(line) == Some(DigitsValue(line[b..b + k]))
  {
    var (b, e) := FindProgress(line).value;
    IntegerPart(line, b, e);
  }

  /* ------------------------------ destRe ------------------------------ */

  const DestMarker := "Destination: "

  predicate IsExtChar(c: char) { ('a' <= c <= 'z') || IsDigit(c) }

  /** A dot directly followed by an extension character. */
  predicate ExtDot(s: string, q: nat) { q + 1 < |s| && s[q] == '.' && IsExtChar(s[q + 1]) }

  /** destRe matches with the marker at `p`, `.*` spanning `s[p + 13..q]`
      (`.` does not match a newline), the dot at `q` and the captured
      extension `s[q + 1..e]`. */
  ghost predicate DestMatch(s: string, p: nat, q: nat, e: nat)
  {
    && OccursAt(s, DestMarker, p)
    && p + |DestMarker| <= q && q + 1 < e <= |s|
    && (forall k :: p + |DestMarker| <= k < q ==> s[k] != '\n')
    && s[q] == '.'
    && (forall k :: q < k < e ==> IsExtChar(s[k]))
  }

  /** The number of extension characters in a row from `i`. */
  function ExtRun(s: string, i: nat): (n: nat)
    requires i <= |s|
    ensures i + n <= |s|
    ensures forall k :: i <= k < i + n ==> IsExtChar(s[k])
    ensures i + n == |s| || !IsExtChar(s[i + n])
    decreases |s| - i
  {
    if i < |s| && IsExtChar(s[i]) then 1 + ExtRun(s, i + 1) else 0
  }

  /** The last dot-before-extension in `s[lo..hi]`. */
  function LastExtDot(s: string, lo: nat, hi: nat): (r: Option<nat>)
    requires lo <= hi <= |s|
    ensures r.Some? ==> lo <= r.value < hi && ExtDot(s, r.value)
    ensures r.Some? ==> forall q :: r.value < q < hi ==> !ExtDot(s, q)
    ensures r.None? ==> forall q :: lo <= q < hi ==> !ExtDot(s, q)
    decreases hi - lo
  {
    if hi == lo then None
    else if ExtDot(s, hi - 1) then Some(hi - 1)
    else LastExtDot(s, lo, hi - 1)
  }

  /** The end of the line that index `i` is on: the next newline, or |s|. */
  function LineEnd(s: string, i: nat): (n: nat)
    requires i <= |s|
    ensures i <= n <= |s|
    ensures n < |s| ==> s[n] == '\n'
    ensures forall k :: i <= k < n ==> s[k] != '\n'
  {
    var k := IndexOf(s[i..], '\n');
    assert forall x :: i <= x < i + k ==> s[x] == s[i..][x - i];
    i + k
  }

  /** The match with the marker at `p`: greedy `.*` takes the last possible
      dot, greedy `+` the whole extension run after it. */
  function DestMatchAt(s: string, p: nat): (r: Option<(nat, nat)>)
    requires p <= |s|
  {
    if !OccursAt(s, DestMarker, p) then None
    else
      var lo := p + |DestMarker|;
      match LastExtDot(s, lo, LineEnd(s, lo))
      case None => None
      case Some(q) => Some((q, q + 1 + ExtRun(s, q + 1)))
  }

  lemma DestMatchAtCorrect(s: string, p: nat)
    requires p <= |s|
    ensures DestMatchAt(s, p).Some? ==>
      var (q, e) := DestMatchAt(s, p).value;
      && DestMatch(s, p, q, e)
      && forall q': nat, e': nat :: DestMatch(s, p, q', e') ==> q' < q || (q' == q && e' <= e)
    ensures DestMatchAt(s, p).None? ==> forall q': nat, e': nat :: !DestMatch(s, p, q', e')
  {
    if OccursAt(s, DestMarker, p) {
      var lo := p + |DestMarker|;
      var hi := LineEnd(s, lo);
      var d := LastExtDot(s, lo, hi);
      forall q': nat, e': nat | DestMatch(s, p, q', e')
        ensures q' < hi && ExtDot(s, q')
      {
        assert IsExtChar(s[q' + 1]);
      }
      if d.Some? {
        var q := d.value;
        var n := ExtRun(s, q + 1);
        assert DestMatch(s, p, q, q + 1 + n);
      }
    }
  }

  /** The leftmost destRe match at or after `p`, as (marker, dot, end). */
  function FindDestFrom(s: string, p: nat): (r: Option<(nat, nat, nat)>)
    requires p <= |s|
    decreases |s| - p
  {
    match DestMatchAt(s, p)
    case Some((q, e)) => Some((p, q, e))
    case None => if p == |s| then None else FindDestFrom(s, p + 1)
  }

  /** No destRe match has its marker at or after `p`. */
  ghost predicate NoDestFrom(s: string, p: nat)
  {
    forall b': nat, q': nat, e': nat :: p <= b' ==> !DestMatch(s, b', q', e')
  }

  /** The match found at `b` is the leftmost from `p` and the greedy one at `b`. */
  ghost predicate LeftmostDest(s: string, p: nat, b: nat, q: nat, e: nat)
  {
    && p <= b && DestMatch(s, b, q, e)
    && (forall b': nat, q': nat, e': nat :: p <= b' < b ==> !DestMatch(s, b', q', e'))
    && (forall q': nat, e': nat :: DestMatch(s, b, q', e') ==> q' < q || (q' == q && e' <= e))
  }

  lemma {:induction false} FindDestFromCorrect(s: string, p: nat)
    requires p <= |s|
    ensures FindDestFrom(s, p).Some? ==>
      var (b, q, e) := FindDestFrom(s, p).value;
      LeftmostDest(s, p, b, q, e)
    ensures FindDestFrom(s, p).None? ==> NoDestFrom(s, p)
    decreases |s| - p
  {
    DestMatchAtCorrect(s, p);
    if DestMatchAt(s, p).None? {
      if p < |s| {
        FindDestFromCorrect(s, p + 1);
        assert FindDestFrom(s, p) == FindDestFrom(s, p + 1);
        forall b': nat, q': nat, e': nat | p <= b' && DestMatch(s, b', q', e')
          ensures FindDestFrom(s, p).Some? && b' >= FindDestFrom(s, p).value.0
        {
          assert b' != p;
        }
      } else {
        forall b': nat, q': nat, e': nat | p <= b'
          ensures !DestMatch(s, b', q', e')
        {
          assert !OccursAt(s, DestMarker, b');
        }
      }
    }
  }

  /** destRe.FindStringSubmatch: the leftmost match, and at its marker the
      last possible dot and the longest extension. */
  function FindDest(line: string): (r: Option<(nat, nat, nat)>)
    ensures r.Some? ==> LeftmostDest(line, 0, r.value.0, r.value.1, r.value.2)
    ensures r.None? ==> NoDestFrom(line, 0)
  {
    FindDestFromCorrect(line, 0);
    FindDestFrom(line, 0)
  }

  /** `m[1]` of destRe: the captured extension, a non-empty run of [a-z0-9]. */
  function DestExt(line: string): (r: Option<string>)
    ensures r.Some? <==> exists b: nat, q: nat, e: nat :: DestMatch(line, b, q, e)
    ensures r.Some? ==> |r.value| >= 1 && forall k :: 0 <= k < |r.value| ==> IsExtChar(r.value[k])
    ensures r.Some? ==> FindDest(line).Some?
    ensures r.Some? ==> var (_, q, e) := FindDest(line).value;
                        q + 1 <= e <= |line| && r.value == line[q + 1..e]
  {
    match FindDest(line)
    case None => None
    case Some((b, q, e)) =>
      var ext := line[q + 1..e];
      assert forall k :: 0 <= k < |ext| ==> ext[k] == line[q + 1 + k];
      Some(ext)
  }

  /* --------------------------- classification --------------------------- */

  /** The stage a destination extension announces, if it is a known one. */
  function ExtStage(ext: string): (r: Option<string>)
    ensures r == Some(VideoStage) <==> ext == "mp4" || ext == "webm"
    ensures r == Some(AudioStage) <==> ext == "m4a" || ext == "mp3" || ext == "opus"
    ensures r.Some? ==> r == Some(VideoStage) || r == Some(AudioStage)
  {
    if ext == "mp4" || ext == "webm" then Some(VideoStage)
    else if ext == "m4a" || ext == "mp3" || ext == "opus" then Some(AudioStage)
    else None
  }

  predicate HasMergeMarker(line: string)
  {
    Contains(line, "Merging") || Contains(line, "ffmpeg")
  }

  /** Everything one line does to the table: the destination's stage, then
      the merging marker's, then the percent. */
  function ApplyLine(m: JobMap, id: string, line: string): JobMap
  {
    var m1 := match DestExt(line)
      case Some(ext) => (match ExtStage(ext) { case Some(st) => WithStage(m, id, st) case None => m })
      case None => m;
    var m2 := if HasMergeMarker(line) then WithStage(m1, id, MergeStage) else m1;
    match LinePercent(line)
    case Some(p) => WithPercent(m2, id, p)
    case None => m2
  }

  /** The stage a line leaves: the merging stage if the line carries the
      marker (even after a destination on the same line), else the
      destination's stage if its extension is known, else the old one. */
  function StageAfterLine(st: string, line: string): string
  {
    if HasMergeMarker(line) then MergeStage
    else match DestExt(line)
      case Some(ext) => (match ExtStage(ext) { case Some(s) => s case None => st })
      case None => st
  }

  /** One line changes only the stage and the percent of job `id`; a line
      without a percent match leaves the percent as it was. */
  lemma ApplyLineEffect(m: JobMap, id: string, line: string)
    ensures var r := ApplyLine(m, id, line);
      && r.Keys == m.Keys
      && (forall k :: k in m && k != id ==> r[k] == m[k])
      && (id in m ==> r[id] == m[id].(
            stage := StageAfterLine(m[id].stage, line),
            percent := match LinePercent(line) { case Some(p) => p case None => m[id].percent }))
  {
  }

  /* ------------------------------ read loop ------------------------------ */

  /** What successive rd.ReadString('\n') calls return for a stream whose
      content up to its end (or its first read error) is `text`: each line
      with its newline, and then the rest without one, possibly empty. */
  function ReadLines(text: string): seq<string>
    decreases |text|
  {
    var k := IndexOf(text, '\n');
    if k == |text| then [text] else [text[..k + 1]] + ReadLines(text[k + 1..])
  }

  /** A line as ReadString returns it before the end: its only newline last. */
  predicate FullLine(l: string)
  {
    |l| >= 1 && l[|l| - 1] == '\n' && '\n' !in l[..|l| - 1]
  }

  /** Every line but the last ends in its only newline; the last has none. */
  lemma {:induction false} ReadLinesShape(text: string)
    ensures var lines := ReadLines(text);
      && |lines| >= 1
      && '\n' !in lines[|lines| - 1]
      && forall i :: 0 <= i < |lines| - 1 ==> FullLine(lines[i])
    decreases |text|
  {
    var k := IndexOf(text, '\n');
    if k < |text| {
      var first := text[..k + 1];
      FirstLineShape(text, k);
      ReadLinesShape(text[k + 1..]);
      var rest := ReadLines(text[k + 1..]);
      assert ReadLines(text) == [first] + rest;
      assert forall i :: 1 <= i < |rest| + 1 ==> ([first] + rest)[i] == rest[i - 1];
    }
  }

  lemma FirstLineShape(text: string, k: nat)
    requires k == IndexOf(text, '\n') && k < |text|
    ensures FullLine(text[..k + 1])
  {
    var first := text[..k + 1];
    assert first[..k] == text[..k];
    assert forall j :: 0 <= j < k ==> text[..k][j] == text[j];
  }

  function Concat(ss: seq<string>): string
  {
    if ss == [] then "" else ss[0] + Concat(ss[1..])
  }

  /** No character is lost or invented: the lines put back together are the text. */
  lemma {:induction false} ReadLinesConcat(text: string)
    ensures Concat(ReadLines(text)) == text
    decreases |text|
  {
    var k := IndexOf(text, '\n');
    if k < |text| {
      ReadLinesConcat(text[k + 1..]);
      assert text == text[..k + 1] + text[k + 1..];
    }
  }

  function ApplyLines(m: JobMap, id: string, lines: seq<string>): JobMap
    decreases |lines|
  {
    if lines == [] then m else ApplyLines(ApplyLine(m, id, lines[0]), id, lines[1..])
  }

  lemma ApplyLinesCons(m: JobMap, id: string, line: string, more: seq<string>)
    ensures ApplyLines(m, id, [line] + more) == ApplyLines(ApplyLine(m, id, line), id, more)
  {
    assert ([line] + more)[1..] == more;
  }

  /** The body of parseProgress's loop for one line. */
  method HandleLine(t: Table, id: string, line: string)
    modifies t
    ensures t.jobs == ApplyLine(old(t.jobs), id, line)
  {
    var ext := DestExt(line);
    if ext.Some? {
      var st := ExtStage(ext.value);
      if st.Some? {
        t.SetJobStage(id, st.value);
      }
    }
    if Contains(line, "Merging") || Contains(line, "ffmpeg") {
      t.SetJobStage(id, MergeStage);
    }
    var p := LinePercent(line);
    if p.Some? {
      t.SetJobPercent(id, p.value);
    }
  }

  /** parseProgress(id, r): every line is handled, the last one too even
      without a newline, and reading ends at the end of `text`. */
  method ParseProgress(t: Table, id: string, text: string)
    modifies t
    ensures t.jobs == ApplyLines(old(t.jobs), id, ReadLines(text))
  {
    var rest := text;
    while true
      invariant ApplyLines(old(t.jobs), id, ReadLines(text)) == ApplyLines(t.jobs, id, ReadLines(rest))
      decreases |rest|
    {
      // rd.ReadString('\n'): a line with its newline, or the rest and an error
      var k := IndexOf(rest, '\n');
      var failed := k == |rest|;
      var line := if failed then rest else rest[..k + 1];
      ghost var more := if failed then [] else ReadLines(rest[k + 1..]);
      assert ReadLines(rest) == [line] + more;
      ApplyLinesCons(t.jobs, id, line, more);
      HandleLine(t, id, line);
      if failed {
        break;
      }
      rest := rest[k + 1..];
    }
  }

  /** After a whole stream, the job's percent is that of the last line that
      had one (or the old one), and its stage is what the lines left. */
  lemma {:induction false} ApplyLinesEffect(m: JobMap, id: string, lines: seq<string>)
    ensures var r := ApplyLines(m, id, lines);
      && r.Keys == m.Keys
      && (forall k :: k in m && k != id ==> r[k] == m[k])
      && (id in m ==> r[id] == m[id].(stage := StageAfterLines(m[id].stage, lines),
                                      percent := PercentAfterLines(m[id].percent, lines)))
    decreases |lines|
  {
    if lines != [] {
      ApplyLineEffect(m, id, lines[0]);
      ApplyLinesEffect(ApplyLine(m, id, lines[0]), id, lines[1..]);
    }
  }

  function StageAfterLines(st: string, lines: seq<string>): string
    decreases |lines|
  {
    if lines == [] then st else StageAfterLines(StageAfterLine(st, lines[0]), lines[1..])
  }

  function PercentAfterLines(p: int, lines: seq<string>): int
    decreases |lines|
  {
    if lines == [] then p
    else PercentAfterLines(match LinePercent(lines[0]) { case Some(v) => v case None => p }, lines[1..])
  }

  /** Whatever was stored before, a non-empty stream whose lines all
      match or keep the percent leaves a percent the stream itself wrote, so
      in 0..999, unless no line matched at all. */
  lemma {:induction false} PercentAfterLinesBound(p: int, lines: seq<string>)
    ensures var r := PercentAfterLines(p, lines);
      r == p || 0 <= r <= 999
    ensures (forall i :: 0 <= i < |lines| ==> LinePercent(lines[i]).None?) ==> PercentAfterLines(p, lines) == p
    decreases |lines|
  {
    if lines != [] {
      var p' := match LinePercent(lines[0]) { case Some(v) => v case None => p };
      PercentAfterLinesBound(p', lines[1..]);
    }
  }
}
