/** downloadJob: the worker that builds the yt-dlp command line for a job,
    launches it, feeds both output pipes to parseProgress and finishes the
    job. What the outside world answers (cookie decoding and writing, the
    process start and exit, what the pipes carry, the files the walk
    finds) is a parameter. */
module Worker {
  import opened Wrappers
  import opened Strings
  import opened Paths
  import opened Jobs
  import opened Cookies
  import opened Progress

  /* ----------------------- choices made from the form ---------------------- */

  datatype Media = Video | Audio | Subs | Thumb

  /** The `switch media` of downloadJob: three names pick their branch and
      any other value, the empty string included, is a video. */
  function MediaOf(kind: string): (m: Media)
    ensures m == Audio <==> kind == "audio"
    ensures m == Subs <==> kind == "subs"
    ensures m == Thumb <==> kind == "thumb"
    ensures m == Video <==> kind != "audio" && kind != "subs" && kind != "thumb"
  {
    if kind == "audio" then Audio
    else if kind == "subs" then Subs
    else if kind == "thumb" then Thumb
    else Video
  }

  const DownloadDir := "downloads"
  const SubsStage := "Descargando subt\U{00ED}tulos\U{2026}"
  const ThumbStage := "Descargando miniatura\U{2026}"
  const DefaultVideoFormat := "bestvideo[ext=mp4]+bestaudio[ext=m4a]/best[ext=mp4]/best"

  /** The output-name template for yt-dlp's -o. */
  function NameTemplate(m: Media): string
  {
    match m
    case Video => "%(title)s_%(resolution)s.%(ext)s"
    case Audio => "%(title)s_audio.%(ext)s"
    case Subs => "%(title)s_%(language)s.%(ext)s"
    case Thumb => "%(title)s_thumb.%(ext)s"
  }

  /** The stage a job shows as soon as its worker runs. */
  function StartStage(m: Media): (st: string)
    ensures st != ""
  {
    match m
    case Video => VideoStage
    case Audio => AudioStage
    case Subs => SubsStage
    case Thumb => ThumbStage
  }

  /** The -f selector of a video download: capped at `quality` lines when one is given. */
  function VideoFormat(quality: string): (f: string)
    ensures quality == "" ==> f == DefaultVideoFormat
    ensures quality != "" ==> OccursAt(f, "[height<=" + quality + "]", 18)
  {
    if quality == "" then DefaultVideoFormat
    else
      var cap := "[height<=" + quality + "]";
      var head := "bestvideo[ext=mp4]";
      var f := head + cap + "+bestaudio[ext=m4a]/best[ext=mp4]" + cap + "/best";
      assert f[|head|..|head| + |cap|] == cap;
      f
  }

  /** The language asked of yt-dlp for subtitles: English unless one is given. */
  function SubLanguage(subLang: string): (l: string)
    ensures l != ""
    ensures subLang == "" ==> l == "en"
    ensures subLang != "" ==> l == subLang
  {
    if subLang == "" then "en" else subLang
  }

  /** The options each kind of download adds. */
  function MediaArgs(m: Media, quality: string, subLang: string): seq<string>
  {
    match m
    case Audio =>
      ["-f", "bestaudio", "-x", "--audio-format", "mp3"]
      + (if quality != "" then ["--audio-quality", quality] else [])
    case Subs =>
      ["--skip-download", "--write-sub", "--sub-lang", SubLanguage(subLang),
       "--sub-format", "srt", "--convert-subs", "srt"]
    case Thumb => ["--skip-download", "--write-thumbnail"]
    case Video => ["-f", VideoFormat(quality), "--merge-output-format", "mp4"]
  }

  function JobDir(id: string): string { JoinPath(DownloadDir, id) }

  function BaseArgs(id: string, m: Media): seq<string>
  {
    ["--newline", "--progress-template", "download:%(progress._percent_str)s",
     "-o", JoinPath(JobDir(id), NameTemplate(m))]
  }

  function CookieArgs(cookieFile: string): seq<string>
  {
    if cookieFile != "" then ["--cookies", cookieFile] else []
  }

  /** The argument list handed to exec.Command("yt-dlp", ...). */
  function CommandLine(id: string, m: Media, quality: string, subLang: string, cookieFile: string, url: string): seq<string>
  {
    BaseArgs(id, m) + MediaArgs(m, quality, subLang) + CookieArgs(cookieFile) + [url]
  }

  /* -------------------------- the outside world --------------------------- */

  /** The form fields the start handlers pass to the worker. */
  datatype Request = Request(url: string, rawCookies: string, media: string, quality: string, subLang: string)

  /** One entry filepath.WalkDir visits. */
  datatype Entry = Entry(path: string, isDir: bool)

  datatype World = World(
    decoded: Result<seq<Cookie>>,  // json.Unmarshal of the pasted cookies
    writeErr: Option<string>,      // os.WriteFile of the cookie file
    startErr: Option<string>,      // cmd.Start
    stdout: string,                // what parseProgress reads from stdout
    stderr: string,                // and from stderr
    waitErr: Option<string>,       // cmd.Wait
    diag: string,                  // io.ReadAll(stderr) after Wait
    walked: seq<Entry>)            // the job folder, in walk order

  predicate IsMp4File(e: Entry) { !e.isDir && Ext(e.path) == ".mp4" }

  /** The file the walk leaves in `final`: the last .mp4 file visited, or "". */
  function LastMp4(walked: seq<Entry>): string
    decreases |walked|
  {
    if walked == [] then ""
    else
      var e := walked[|walked| - 1];
      if IsMp4File(e) then e.path else LastMp4(walked[..|walked| - 1])
  }

  /** An .mp4 file has a name. */
  lemma Mp4Named(e: Entry)
    ensures IsMp4File(e) ==> e.path != ""
  {
    assert Ext("") == "";
  }

  /** Entry `i` is an .mp4 file and no later entry is one. */
  ghost predicate LastMp4At(walked: seq<Entry>, i: int)
  {
    0 <= i < |walked| && IsMp4File(walked[i]) && forall j :: i < j < |walked| ==> !IsMp4File(walked[j])
  }

  /** No path comes back exactly when no entry is an .mp4 file;
      otherwise it is that of an .mp4 file that no later entry follows. */
  lemma {:induction false} LastMp4Spec(walked: seq<Entry>)
    ensures LastMp4(walked) == "" ==> forall i :: 0 <= i < |walked| ==> !IsMp4File(walked[i])
    ensures LastMp4(walked) != "" ==> exists i :: LastMp4At(walked, i) && walked[i].path == LastMp4(walked)
    decreases |walked|
  {
    if walked != [] {
      var n := |walked| - 1;
      var init := walked[..n];
      if IsMp4File(walked[n]) {
        Mp4Named(walked[n]);
        assert LastMp4At(walked, n);
      } else {
        assert LastMp4(walked) == LastMp4(init);
        LastMp4Spec(init);
        if LastMp4(init) != "" {
          var i :| LastMp4At(init, i) && init[i].path == LastMp4(init);
          assert LastMp4At(walked, i);
        } else {
          forall i | 0 <= i < |walked|
            ensures !IsMp4File(walked[i])
          {
            if i < n {
              assert walked[i] == init[i];
            }
          }
        }
      }
    }
  }

  /** The WalkDir callback of downloadJob, run over every entry. */
  method FindFinal(walked: seq<Entry>) returns (final: string)
    ensures final == LastMp4(walked)
  {
    final := "";
    for i := 0 to |walked|
      invariant final == LastMp4(walked[..i])
    {
      assert walked[..i + 1][..i] == walked[..i];
      if !walked[i].isDir && Ext(walked[i].path) == ".mp4" {
        final := walked[i].path;
      }
    }
    assert walked[..|walked|] == walked;
  }

  /* ------------------------ the job-table steps --------------------------- */

  /** The locked steps parseProgress takes for one line. */
  function LineSteps(id: string, line: string): seq<Step>
  {
    (match DestExt(line)
     case Some(ext) => (match ExtStage(ext) { case Some(st) => [SetStage(id, st)] case None => [] })
     case None => [])
    + (if HasMergeMarker(line) then [SetStage(id, MergeStage)] else [])
    + (match LinePercent(line) { case Some(p) => [SetPercent(id, p)] case None => [] })
  }

  function LinesSteps(id: string, lines: seq<string>): seq<Step>
    decreases |lines|
  {
    if lines == [] then [] else LineSteps(id, lines[0]) + LinesSteps(id, lines[1..])
  }

  /** The steps of one line are what ApplyLine does. */
  lemma LineStepsApply(m: JobMap, id: string, line: string)
    ensures ApplyAll(m, LineSteps(id, line)) == ApplyLine(m, id, line)
  {
    var a := match DestExt(line)
      case Some(ext) => (match ExtStage(ext) { case Some(st) => [SetStage(id, st)] case None => [] })
      case None => [];
    var b := if HasMergeMarker(line) then [SetStage(id, MergeStage)] else [];
    var c := match LinePercent(line) { case Some(p) => [SetPercent(id, p)] case None => [] };
    ApplyAllAppend(m, a + b, c);
    ApplyAllAppend(m, a, b);
  }

  lemma {:induction false} LinesStepsApply(m: JobMap, id: string, lines: seq<string>)
    ensures ApplyAll(m, LinesSteps(id, lines)) == ApplyLines(m, id, lines)
    decreases |lines|
  {
    if lines != [] {
      ApplyAllAppend(m, LineSteps(id, lines[0]), LinesSteps(id, lines[1..]));
      LineStepsApply(m, id, lines[0]);
      LinesStepsApply(ApplyLine(m, id, lines[0]), id, lines[1..]);
    }
  }

  lemma LineStepsNoCreate(id: string, line: string)
    ensures NoCreate(LineSteps(id, line))
  {
    var a := match DestExt(line)
      case Some(ext) => (match ExtStage(ext) { case Some(st) => [SetStage(id, st)] case None => [] })
      case None => [];
    var b := if HasMergeMarker(line) then [SetStage(id, MergeStage)] else [];
    var c := match LinePercent(line) { case Some(p) => [SetPercent(id, p)] case None => [] };
    NoCreateAppend(a, b);
    NoCreateAppend(a + b, c);
  }

  lemma {:induction false} LinesStepsNoCreate(id: string, lines: seq<string>)
    ensures NoCreate(LinesSteps(id, lines))
    decreases |lines|
  {
    if lines != [] {
      LinesStepsNoCreate(id, lines[1..]);
      LineStepsNoCreate(id, lines[0]);
      NoCreateAppend(LineSteps(id, lines[0]), LinesSteps(id, lines[1..]));
    }
  }

  lemma LineStepsProgressOnly(id: string, line: string)
    ensures ProgressOnly(LineSteps(id, line))
  {
    var a := match DestExt(line)
      case Some(ext) => (match ExtStage(ext) { case Some(st) => [SetStage(id, st)] case None => [] })
      case None => [];
    var b := if HasMergeMarker(line) then [SetStage(id, MergeStage)] else [];
    var c := match LinePercent(line) { case Some(p) => [SetPercent(id, p)] case None => [] };
    ProgressOnlyAppend(a, b);
    ProgressOnlyAppend(a + b, c);
  }

  lemma {:induction false} LinesStepsProgressOnly(id: string, lines: seq<string>)
    ensures ProgressOnly(LinesSteps(id, lines))
    decreases |lines|
  {
    if lines != [] {
      LinesStepsProgressOnly(id, lines[1..]);
      LineStepsProgressOnly(id, lines[0]);
      ProgressOnlyAppend(LineSteps(id, lines[0]), LinesSteps(id, lines[1..]));
    }
  }

  /** The cookie file the worker prepares in the job folder. */
  function CookiesFor(id: string, req: Request, w: World): Prepared
  {
    Prepare(req.rawCookies, JobDir(id), w.decoded, w.writeErr)
  }

  /** An error followed by an en dash and yt-dlp's trimmed output, as the
      worker and getInfo report a failed run. */
  function ErrorWithOutput(e: string, diag: string): string
  {
    e + " \U{2013} " + TrimSpace(diag)
  }

  /** What the two parseProgress goroutines do, stdout first. */
  function Pipes(id: string, w: World): seq<Step>
  {
    LinesSteps(id, ReadLines(w.stdout)) + LinesSteps(id, ReadLines(w.stderr))
  }

  /** Everything after the command is stored: start, both pipes, the exit. */
  function RunSteps(id: string, w: World): seq<Step>
  {
    if w.startErr.Some? then [Finish(id, "", w.startErr)]
    else [SetProc(id, ProcStarted)] + Pipes(id, w) + [ExitStep(id, w)]
  }

  /** Storing the command, then running it. */
  function LaunchSteps(id: string, w: World): seq<Step>
  {
    [SetProc(id, CmdBuilt)] + RunSteps(id, w)
  }

  /** Every step downloadJob takes on the table, in order. */
  function DownloadSteps(id: string, req: Request, w: World): seq<Step>
  {
    var prep := CookiesFor(id, req, w);
    [SetStage(id, StartStage(MediaOf(req.media)))]
    + if prep.PrepError? then [Finish(id, "", Some("cookies: " + prep.message))]
      else LaunchSteps(id, w)
  }

  /** The command the worker launches, if it gets that far. */
  function Launched(id: string, req: Request, w: World): Option<seq<string>>
  {
    var prep := CookiesFor(id, req, w);
    if prep.PrepError? then None
    else
      var cookieFile := PathOf(prep);
      Some(CommandLine(id, MediaOf(req.media), req.quality, req.subLang, cookieFile, req.url))
  }

  /* ------------------------------ the worker ------------------------------ */

  /** Builds the argument list the way downloadJob does, setting the start
      stage on the way. */
  method MediaOptions(t: Table, id: string, media: string, quality: string, subLang: string) returns (args: seq<string>)
    modifies t
    ensures args == BaseArgs(id, MediaOf(media)) + MediaArgs(MediaOf(media), quality, subLang)
    ensures t.jobs == WithStage(old(t.jobs), id, StartStage(MediaOf(media)))
  {
    var dest := JoinPath(DownloadDir, id);
    var nameTmpl := "%(title)s_%(resolution)s.%(ext)s";
    if media == "audio" {
      nameTmpl := "%(title)s_audio.%(ext)s";
    } else if media == "subs" {
      nameTmpl := "%(title)s_%(language)s.%(ext)s";
    } else if media == "thumb" {
      nameTmpl := "%(title)s_thumb.%(ext)s";
    }
    var outPath := JoinPath(dest, nameTmpl);
    args := ["--newline", "--progress-template", "download:%(progress._percent_str)s", "-o", outPath];
    if media == "audio" {
      args := args + ["-f", "bestaudio", "-x", "--audio-format", "mp3"];
      t.SetJobStage(id, AudioStage);
      if quality != "" {
        args := args + ["--audio-quality", quality];
      }
    } else if media == "subs" {
      var lang := subLang;
      if lang == "" {
        lang := "en";
      }
      args := args + ["--skip-download", "--write-sub", "--sub-lang", lang, "--sub-format", "srt", "--convert-subs", "srt"];
      t.SetJobStage(id, SubsStage);
    } else if media == "thumb" {
      args := args + ["--skip-download", "--write-thumbnail"];
      t.SetJobStage(id, ThumbStage);
    } else {
      var format := VideoFormat(quality);
      args := args + ["-f", format, "--merge-output-format", "mp4"];
      t.SetJobStage(id, VideoStage);
    }
  }

  /** The two parseProgress goroutines, stdout first. */
  method ReadPipes(t: Table, id: string, stdout: string, stderr: string)
    modifies t
    ensures t.jobs == ApplyAll(old(t.jobs), LinesSteps(id, ReadLines(stdout)) + LinesSteps(id, ReadLines(stderr)))
  {
    ghost var m0 := t.jobs;
    ParseProgress(t, id, stdout);
    LinesStepsApply(m0, id, ReadLines(stdout));
    ghost var m1 := t.jobs;
    ParseProgress(t, id, stderr);
    LinesStepsApply(m1, id, ReadLines(stderr));
    ApplyAllAppend(m0, LinesSteps(id, ReadLines(stdout)), LinesSteps(id, ReadLines(stderr)));
  }

  /** The step that ends a launched job: its exit status, or the file found. */
  function ExitStep(id: string, w: World): Step
  {
    if w.waitErr.Some? then Finish(id, "", Some(ErrorWithOutput(w.waitErr.value, w.diag)))
    else Finish(id, LastMp4(w.walked), None)
  }

  /** cmd.Wait and what follows it. */
  method Exit(t: Table, id: string, w: World)
    modifies t
    ensures t.jobs == ApplyAll(old(t.jobs), [ExitStep(id, w)])
  {
    ApplyOne(t.jobs, ExitStep(id, w));
    if w.waitErr.Some? {
      t.FinishJob(id, "", Some(w.waitErr.value + " \U{2013} " + TrimSpace(w.diag)));
      return;
    }
    var final := FindFinal(w.walked);
    t.FinishJob(id, final, None);
  }

  /** The steps of a launched job, regrouped the way Run takes them. */
  lemma RunStepsApply(m0: JobMap, id: string, w: World, m1: JobMap, m2: JobMap, m3: JobMap)
    requires w.startErr.None?
    requires m1 == WithProc(m0, id, ProcStarted)
    requires m2 == ApplyAll(m1, Pipes(id, w))
    requires m3 == ApplyAll(m2, [ExitStep(id, w)])
    ensures m3 == ApplyAll(m0, RunSteps(id, w))
  {
    var a, pipes, z := SetProc(id, ProcStarted), Pipes(id, w), ExitStep(id, w);
    ApplyOne(m2, z);
    ApplyCons(m0, a, pipes, m1, m2);
    ApplySnoc(m0, [a] + pipes, z, m2, m3);
    assert RunSteps(id, w) == [a] + pipes + [z];
  }

  /** From `cmd.Start` to the last finishJob. */
  method Run(t: Table, id: string, w: World)
    modifies t
    ensures t.jobs == ApplyAll(old(t.jobs), RunSteps(id, w))
  {
    ghost var m0 := t.jobs;
    if w.startErr.Some? {
      ApplyOne(m0, Finish(id, "", w.startErr));
      t.FinishJob(id, "", w.startErr);
      return;
    }
    t.SetJobProc(id, ProcStarted);
    ghost var m1 := t.jobs;
    ReadPipes(t, id, w.stdout, w.stderr);
    ghost var m2 := t.jobs;
    Exit(t, id, w);
    RunStepsApply(m0, id, w, m1, m2, t.jobs);
  }

  /** The steps of downloadJob, regrouped the way DownloadJob takes them. */
  lemma DownloadStepsApply(m0: JobMap, id: string, req: Request, w: World, m1: JobMap, m2: JobMap)
    requires !CookiesFor(id, req, w).PrepError?
    requires m1 == WithStage(m0, id, StartStage(MediaOf(req.media)))
    requires m2 == ApplyAll(m1, LaunchSteps(id, w))
    ensures m2 == ApplyAll(m0, DownloadSteps(id, req, w))
  {
    var first := SetStage(id, StartStage(MediaOf(req.media)));
    ApplyCons(m0, first, LaunchSteps(id, w), m1, m2);
    assert DownloadSteps(id, req, w) == [first] + LaunchSteps(id, w);
  }

  lemma LaunchStepsApply(m0: JobMap, id: string, w: World, m1: JobMap, m2: JobMap)
    requires m1 == WithProc(m0, id, CmdBuilt)
    requires m2 == ApplyAll(m1, RunSteps(id, w))
    ensures m2 == ApplyAll(m0, LaunchSteps(id, w))
  {
    ApplyCons(m0, SetProc(id, CmdBuilt), RunSteps(id, w), m1, m2);
  }

  lemma CookieFailureApply(m0: JobMap, id: string, req: Request, w: World, m1: JobMap, m2: JobMap)
    requires CookiesFor(id, req, w).PrepError?
    requires m1 == WithStage(m0, id, StartStage(MediaOf(req.media)))
    requires m2 == Finished(m1, id, "", Some("cookies: " + CookiesFor(id, req, w).message))
    ensures m2 == ApplyAll(m0, DownloadSteps(id, req, w))
  {
    var first := SetStage(id, StartStage(MediaOf(req.media)));
    var last := Finish(id, "", Some("cookies: " + CookiesFor(id, req, w).message));
    ApplyOne(m1, last);
    ApplyCons(m0, first, [last], m1, m2);
    assert DownloadSteps(id, req, w) == [first] + [last];
  }

  /** The `if cookiesRaw != ""` block of downloadJob, up to its error check. */
  method CookieOptions(id: string, req: Request, w: World) returns (prep: Prepared)
    ensures prep == CookiesFor(id, req, w)
  {
    prep := NoFile;
    if req.rawCookies != "" {
      prep := PrepareCookieFile(req.rawCookies, JoinPath(DownloadDir, id), w.decoded, w.writeErr);
    }
  }

  /** The rest of downloadJob once the cookies are in place: the full
      argument list, the stored command, and its run. */
  method Launch(t: Table, id: string, req: Request, w: World, args0: seq<string>, prep: Prepared)
    returns (args: seq<string>)
    requires prep == CookiesFor(id, req, w) && !prep.PrepError?
    requires args0 == BaseArgs(id, MediaOf(req.media)) + MediaArgs(MediaOf(req.media), req.quality, req.subLang)
    modifies t
    ensures t.jobs == ApplyAll(old(t.jobs), LaunchSteps(id, w))
    ensures Launched(id, req, w) == Some(args)
  {
    args := args0;
    var cookieFile := PathOf(prep);
    if cookieFile != "" {
      args := args + ["--cookies", cookieFile];
    }
    args := args + [req.url];
    assert args == CommandLine(id, MediaOf(req.media), req.quality, req.subLang, cookieFile, req.url);
    ghost var m0 := t.jobs;
    t.SetJobProc(id, CmdBuilt);
    ghost var m1 := t.jobs;
    Run(t, id, w);
    LaunchStepsApply(m0, id, w, m1, t.jobs);
  }

  /** downloadJob: returns the command it launched (None when it stopped
      before building one). */
  method DownloadJob(t: Table, id: string, req: Request, w: World) returns (cmd: Option<seq<string>>)
    modifies t
    ensures t.jobs == ApplyAll(old(t.jobs), DownloadSteps(id, req, w))
    ensures cmd == Launched(id, req, w)
  {
    ghost var m0 := t.jobs;
    var args := MediaOptions(t, id, req.media, req.quality, req.subLang);
    ghost var m1 := t.jobs;
    var prep := CookieOptions(id, req, w);
    if prep.PrepError? {
      t.FinishJob(id, "", Some("cookies: " + prep.message));
      CookieFailureApply(m0, id, req, w, m1, t.jobs);
      return None;
    }
    args := Launch(t, id, req, w, args, prep);
    cmd := Some(args);
    DownloadStepsApply(m0, id, req, w, m1, t.jobs);
  }

  /* ------------------------------ properties ------------------------------ */

  lemma PipesNoCreate(id: string, w: World)
    ensures NoCreate(Pipes(id, w))
  {
    LinesStepsNoCreate(id, ReadLines(w.stdout));
    LinesStepsNoCreate(id, ReadLines(w.stderr));
    NoCreateAppend(LinesSteps(id, ReadLines(w.stdout)), LinesSteps(id, ReadLines(w.stderr)));
  }

  /** downloadJob creates no job, so whatever it does can happen. */
  lemma DownloadRuns(m: JobMap, id: string, req: Request, w: World)
    ensures Runs(m, DownloadSteps(id, req, w))
  {
    var first := [SetStage(id, StartStage(MediaOf(req.media)))];
    if CookiesFor(id, req, w).PrepError? {
      NoCreateAppend(first, [Finish(id, "", Some("cookies: " + CookiesFor(id, req, w).message))]);
    } else {
      PipesNoCreate(id, w);
      if w.startErr.None? {
        NoCreateAppend([SetProc(id, ProcStarted)], Pipes(id, w));
        NoCreateAppend([SetProc(id, ProcStarted)] + Pipes(id, w), [ExitStep(id, w)]);
      }
      NoCreateAppend([SetProc(id, CmdBuilt)], RunSteps(id, w));
      NoCreateAppend(first, LaunchSteps(id, w));
    }
    NoCreateRuns(m, DownloadSteps(id, req, w));
  }

  /** The progress lines touch only the stage and the percent of the job. */
  lemma PipesEffect(m: JobMap, id: string, w: World)
    ensures var r := ApplyAll(m, Pipes(id, w));
      && r.Keys == m.Keys
      && (forall k :: k in m && k != id ==> r[k] == m[k])
      && (id in m ==> r[id].(stage := m[id].stage, percent := m[id].percent) == m[id])
  {
    var out := LinesSteps(id, ReadLines(w.stdout));
    var err := LinesSteps(id, ReadLines(w.stderr));
    ApplyAllAppend(m, out, err);
    LinesStepsApply(m, id, ReadLines(w.stdout));
    ApplyLinesEffect(m, id, ReadLines(w.stdout));
    var m1 := ApplyAll(m, out);
    LinesStepsApply(m1, id, ReadLines(w.stderr));
    ApplyLinesEffect(m1, id, ReadLines(w.stderr));
  }

  /** The finishJob call that ends every path of downloadJob. */
  function LastStep(id: string, req: Request, w: World): (s: Step)
    ensures s.Finish? && s.id == id
  {
    var prep := CookiesFor(id, req, w);
    if prep.PrepError? then Finish(id, "", Some("cookies: " + prep.message))
    else if w.startErr.Some? then Finish(id, "", w.startErr)
    else ExitStep(id, w)
  }

  /** The proc a job holds when its download ends. */
  function ProcAtEnd(before: Proc, id: string, req: Request, w: World): Proc
  {
    if CookiesFor(id, req, w).PrepError? then before
    else if w.startErr.Some? then CmdBuilt
    else ProcStarted
  }

  /** What the steps before the last one may do to the table: change the
      stage, the percent and the proc of job `id`, and nothing else. */
  ghost predicate OnlyProgress(m: JobMap, before: JobMap, id: string, proc: Proc)
  {
    && before.Keys == m.Keys
    && (forall k :: k in m && k != id ==> before[k] == m[k])
    && (id in m ==>
         && before[id].(stage := m[id].stage, percent := m[id].percent, proc := m[id].proc) == m[id]
         && before[id].proc == proc)
  }

  lemma BeforeCookieFailure(m: JobMap, id: string, req: Request, w: World) returns (before: JobMap)
    requires CookiesFor(id, req, w).PrepError?
    ensures ApplyAll(m, DownloadSteps(id, req, w)) == Apply(before, LastStep(id, req, w))
    ensures id in m ==> OnlyProgress(m, before, id, m[id].proc)
    ensures id !in m ==> OnlyProgress(m, before, id, NoCmd)
  {
    before := WithStage(m, id, StartStage(MediaOf(req.media)));
    var msg := CookiesFor(id, req, w).message;
    assert LastStep(id, req, w) == Finish(id, "", Some("cookies: " + msg));
    CookieFailureApply(m, id, req, w, before, Finished(before, id, "", Some("cookies: " + msg)));
  }

  lemma BeforeStartFailure(m: JobMap, id: string, req: Request, w: World) returns (before: JobMap)
    requires !CookiesFor(id, req, w).PrepError? && w.startErr.Some?
    ensures ApplyAll(m, DownloadSteps(id, req, w)) == Apply(before, LastStep(id, req, w))
    ensures OnlyProgress(m, before, id, CmdBuilt)
  {
    var m1 := WithStage(m, id, StartStage(MediaOf(req.media)));
    before := WithProc(m1, id, CmdBuilt);
    assert LastStep(id, req, w) == Finish(id, "", w.startErr);
    ApplyOne(before, Finish(id, "", w.startErr));
    LaunchStepsApply(m1, id, w, before, ApplyAll(before, RunSteps(id, w)));
    DownloadStepsApply(m, id, req, w, m1, ApplyAll(before, RunSteps(id, w)));
  }

  /** The launched path regrouped: the steps up to the pipes, then the exit. */
  lemma ExitSequence(m: JobMap, id: string, req: Request, w: World, m1: JobMap, m2: JobMap, m3: JobMap, before: JobMap)
    requires !CookiesFor(id, req, w).PrepError? && w.startErr.None?
    requires m1 == WithStage(m, id, StartStage(MediaOf(req.media)))
    requires m2 == WithProc(m1, id, CmdBuilt)
    requires m3 == WithProc(m2, id, ProcStarted)
    requires before == ApplyAll(m3, Pipes(id, w))
    ensures ApplyAll(m, DownloadSteps(id, req, w)) == Apply(before, LastStep(id, req, w))
  {
    assert LastStep(id, req, w) == ExitStep(id, w);
    var m5 := ApplyAll(before, [ExitStep(id, w)]);
    ApplyOne(before, ExitStep(id, w));
    RunStepsApply(m2, id, w, m3, before, m5);
    LaunchStepsApply(m1, id, w, m2, m5);
    DownloadStepsApply(m, id, req, w, m1, m5);
  }

  /** Setting the stage and the proc twice, then the pipes, is progress only. */
  lemma ExitFrame(m: JobMap, id: string, st: string, w: World, m3: JobMap)
    requires m3 == WithProc(WithProc(WithStage(m, id, st), id, CmdBuilt), id, ProcStarted)
    ensures OnlyProgress(m, ApplyAll(m3, Pipes(id, w)), id, ProcStarted)
  {
    PipesEffect(m3, id, w);
  }

  lemma BeforeExit(m: JobMap, id: string, req: Request, w: World) returns (before: JobMap)
    requires !CookiesFor(id, req, w).PrepError? && w.startErr.None?
    ensures ApplyAll(m, DownloadSteps(id, req, w)) == Apply(before, LastStep(id, req, w))
    ensures OnlyProgress(m, before, id, ProcStarted)
  {
    var st := StartStage(MediaOf(req.media));
    var m1 := WithStage(m, id, st);
    var m2 := WithProc(m1, id, CmdBuilt);
    var m3 := WithProc(m2, id, ProcStarted);
    before := ApplyAll(m3, Pipes(id, w));
    ExitFrame(m, id, st, w, m3);
    ExitSequence(m, id, req, w, m1, m2, m3, before);
  }

  /** Before its last step, downloadJob has changed only the stage, the
      percent and the proc of its own job. */
  lemma BeforeLastStep(m: JobMap, id: string, req: Request, w: World) returns (before: JobMap)
    ensures ApplyAll(m, DownloadSteps(id, req, w)) == Apply(before, LastStep(id, req, w))
    ensures before.Keys == m.Keys
    ensures forall k :: k in m && k != id ==> before[k] == m[k]
    ensures id in m ==>
      && before[id].(stage := m[id].stage, percent := m[id].percent, proc := m[id].proc) == m[id]
      && before[id].proc == ProcAtEnd(m[id].proc, id, req, w)
  {
    if CookiesFor(id, req, w).PrepError? {
      before := BeforeCookieFailure(m, id, req, w);
    } else if w.startErr.Some? {
      before := BeforeStartFailure(m, id, req, w);
    } else {
      before := BeforeExit(m, id, req, w);
    }
  }

  /** How a job ends. Every path of downloadJob ends in finishJob: with
      the cookie error and nothing launched, with the start error, with
      the exit error and yt-dlp's trimmed diagnostics, or with the last
      .mp4 the walk found and no error. A job not canceled is then ready
      at 100 percent; a canceled one keeps its completion fields. */
  lemma DownloadOutcome(m: JobMap, id: string, req: Request, w: World)
    ensures id in ApplyAll(m, DownloadSteps(id, req, w)) <==> id in m
    ensures id in m ==>
      var j := ApplyAll(m, DownloadSteps(id, req, w))[id];
      var prep := CookiesFor(id, req, w);
      && (prep.PrepError? ==>
            j.err == "cookies: " + prep.message && j.filePath == "" && j.proc == m[id].proc)
      && (!prep.PrepError? && w.startErr.Some? ==>
            j.err == w.startErr.value && j.filePath == "" && j.proc == CmdBuilt)
      && (!prep.PrepError? && w.startErr.None? && w.waitErr.Some? ==>
            j.err == ErrorWithOutput(w.waitErr.value, w.diag) && j.filePath == "" && j.proc == ProcStarted)
      && (!prep.PrepError? && w.startErr.None? && w.waitErr.None? ==>
            j.err == m[id].err && j.filePath == LastMp4(w.walked) && j.proc == ProcStarted)
      && j.canceled == m[id].canceled
      && (!m[id].canceled ==> j.ready && j.percent == 100 && j.stage == CompletedStage)
      && (m[id].canceled ==> j.ready == m[id].ready)
  {
    var before := BeforeLastStep(m, id, req, w);
    var last := LastStep(id, req, w);
    assert ApplyAll(m, DownloadSteps(id, req, w)) == Finished(before, id, last.path, last.e);
  }

  /** downloadJob touches its own job only; an unknown id leaves the table
      as it was. */
  lemma DownloadFrame(m: JobMap, id: string, req: Request, w: World)
    ensures var r := ApplyAll(m, DownloadSteps(id, req, w));
      && r.Keys == m.Keys
      && (forall k :: k in m && k != id ==> r[k] == m[k])
      && (id !in m ==> r == m)
  {
    var before := BeforeLastStep(m, id, req, w);
    var last := LastStep(id, req, w);
    var r := Finished(before, id, last.path, last.e);
    assert ApplyAll(m, DownloadSteps(id, req, w)) == r;
    if id !in m {
      assert forall k :: k in r ==> r[k] == m[k];
    }
  }

  /** The readers only write stages and percents, so any part of what they
      read, a tail of it included, is made of such steps. */
  lemma PipesProgressOnly(id: string, w: World)
    ensures ProgressOnly(Pipes(id, w))
    ensures forall k :: 0 <= k <= |Pipes(id, w)| ==> ProgressOnly(Pipes(id, w)[k..])
  {
    LinesStepsProgressOnly(id, ReadLines(w.stdout));
    LinesStepsProgressOnly(id, ReadLines(w.stderr));
    ProgressOnlyAppend(LinesSteps(id, ReadLines(w.stdout)), LinesSteps(id, ReadLines(w.stderr)));
    var ps := Pipes(id, w);
    forall k | 0 <= k <= |ps|
      ensures ProgressOnly(ps[k..])
    {
      assert forall i :: 0 <= i < |ps[k..]| ==> ps[k..][i] == ps[k + i];
    }
  }

  /** cmd.Wait does not wait for the two readers, so lines they still hold
      may be applied after the final finishJob. Such late steps, whatever
      they are, keep the error, the file, the ready and canceled flags and
      the process DownloadOutcome gives the job; only its stage and percent
      may move again. */
  lemma LateReaders(m: JobMap, id: string, req: Request, w: World, late: seq<Step>)
    requires id in m && ProgressOnly(late)
    ensures var j0 := ApplyAll(m, DownloadSteps(id, req, w));
      var r := ApplyAll(j0, late);
      && id in j0 && id in r
      && r[id].ready == j0[id].ready && r[id].err == j0[id].err
      && r[id].filePath == j0[id].filePath && r[id].canceled == j0[id].canceled
      && r[id].proc == j0[id].proc
  {
    DownloadOutcome(m, id, req, w);
    ProgressStepsKeep(ApplyAll(m, DownloadSteps(id, req, w)), late);
  }

  /** A job canceled before it completes stays canceled and never becomes
      ready, however its download ends. */
  lemma CanceledDownloadNeverReady(m: JobMap, id: string, req: Request, w: World)
    requires id in m && m[id].canceled && !m[id].ready
    ensures id in ApplyAll(m, DownloadSteps(id, req, w))
    ensures var j := ApplyAll(m, DownloadSteps(id, req, w))[id];
      j.canceled && !j.ready
  {
    DownloadRuns(m, id, req, w);
    CanceledNeverReady(m, DownloadSteps(id, req, w), id);
  }

  /** The URL is always the last argument, and --cookies with its file
      comes right before it exactly when there is a cookie file. */
  lemma CommandLineShape(id: string, m: Media, quality: string, subLang: string, cookieFile: string, url: string)
    ensures var a := CommandLine(id, m, quality, subLang, cookieFile, url);
      && |a| >= 8
      && a[|a| - 1] == url
      && (a[|a| - 3] == "--cookies" <==> cookieFile != "")
      && (cookieFile != "" ==> a[|a| - 2] == cookieFile)
      && a[3] == "-o" && a[4] == JoinPath(JobDir(id), NameTemplate(m))
  {
    var media := MediaArgs(m, quality, subLang);
    var a := CommandLine(id, m, quality, subLang, cookieFile, url);
    if cookieFile == "" {
      assert a == BaseArgs(id, m) + media + [url];
      assert a[|a| - 3] == media[|media| - 2];
    }
  }

  /** The quality field matters only when given: it adds --audio-quality
      to an audio download and caps the height of a video download. */
  lemma QualityOptions(quality: string, subLang: string)
    ensures "--audio-quality" in MediaArgs(Audio, quality, subLang) <==> quality != ""
    ensures MediaArgs(Video, quality, subLang)[1] == DefaultVideoFormat <==> quality == ""
    ensures quality != "" ==> OccursAt(MediaArgs(Video, quality, subLang)[1], "[height<=" + quality + "]", 18)
  {
    if quality != "" {
      var f := VideoFormat(quality);
      assert f[18] == '[';
      assert DefaultVideoFormat[18] == '+';
    }
  }

  /** Subtitles are asked for in English unless a language is given. */
  lemma SubtitleLanguage(quality: string, subLang: string)
    ensures MediaArgs(Subs, quality, subLang)[2..4] == ["--sub-lang", if subLang == "" then "en" else subLang]
  {
  }

  /** With cookies pasted, either their file is passed to yt-dlp or the job
      ends on the cookie error before anything is launched; without them,
      no --cookies argument appears. */
  lemma CookieArguments(id: string, req: Request, w: World)
    ensures Launched(id, req, w).None? ==> req.rawCookies != "" && CookiesFor(id, req, w).PrepError?
    ensures Launched(id, req, w).Some? ==>
      var a := Launched(id, req, w).value;
      && a[|a| - 1] == req.url
      && (a[|a| - 3] == "--cookies" <==> req.rawCookies != "")
      && (req.rawCookies != "" ==> a[|a| - 2] == JoinPath(JobDir(id), "cookies.txt"))
  {
    var prep := CookiesFor(id, req, w);
    PrepareCases(req.rawCookies, JobDir(id), w.decoded, w.writeErr);
    JoinPathShape(JobDir(id), "cookies.txt");
    if !prep.PrepError? {
      var cookieFile := PathOf(prep);
      CommandLineShape(id, MediaOf(req.media), req.quality, req.subLang, cookieFile, req.url);
    }
  }
}
