# yt-dlp web front-end: job table, progress stream and worker, in Dafny

The system is a small web front-end for yt-dlp. A user either asks for information about a URL or starts a download job. Each job has an entry in a shared job table. A worker goroutine does three things for each job:

- it builds the yt-dlp command line;
- it reads yt-dlp's output line by line, turning each line into a stage and a percent;
- it records how the job ended.

A server-sent-events stream polls the job and reports its progress to the browser. Other handlers cancel a job and serve its finished file. There are two front ends, one on Gin and one on PocketBase; they share the job table and the worker.

The model is organised by modules:

- `Jobs`: the job record and the table, as a class whose methods are the locked helpers (`setJobPercent`, `setJobStage`, `finishJob`, insertion, the cancel update). Each method is specified by a pure map transition. These transitions (`WithPercent`, `WithStage`, `Finished`, `Canceled`, `WithProc`, `Created`) also define a step language (`Step`, `Apply`, `ApplyAll`), which is used to reason about any interleaving of atomic steps.
- `Progress`: the two regular expressions of the worker, written by hand and proved sound, complete and leftmost; the per-line classification; the `ReadString` loop of `parseProgress` as a method on the table.
- `Stream`: one poll of `progressGin`/`progressPB` as a function, and the loop over a sequence of job snapshots as a method proved equal to it.
- `Cookies`: the builder loop of `jsonToNetscape` and the `prepareCookieFile` heuristic.
- `Worker`: the argument builder and the whole of `downloadJob` as a method on the table, proved equal to a sequence of steps.
- `Handlers`: form access (`DefaultPostForm`), the start, cancel and serve handlers.
- `Info`: the `getInfo` summary. It has the set-filling loops, the in-place sorts on arrays, the thumbnail choice, and the error paths of the handler.
- `Strings`, `Decimal`, `Paths`, `Wrappers`: the library functions the code relies on: `strings.Split`/`Join`/`TrimSpace`, byte-wise string order, `%d` and its read-back, `filepath.Join`/`Ext`/`Base`, and Option/Result.

Every outside effect is a parameter: the JSON decodes, the file writes, the process start and exit, what the pipes deliver, and the directory walk. The `Worker.World` and `Info.InfoWorld` records carry them. A job's process is abstracted to `Proc`: no command, command stored, or process started.

## Model

| member | source | states |
|---|---|---|
| Jobs.WithPercent | main.go:69-75 | An unknown id leaves the map unchanged. For a known id only that job's percent changes, to the new value with no monotonicity check. The key set and every other job are unchanged. |
| Jobs.WithStage | main.go:77-83 | An unknown id leaves the map unchanged. For a known id only that job's stage changes. Every other job and field is unchanged. |
| Jobs.Finished | main.go:85-99 | The error is recorded only when one is given, and the file path is always set. A job that is not canceled becomes ready at 100 percent in the completed stage. A canceled job keeps its percent, stage and ready flag. The canceled flag, the process and the other jobs are unchanged. |
| Jobs.Canceled | main.go:283-291 | A known job gets its canceled flag raised and nothing else. An unknown id changes nothing. |
| Jobs.WithProc | main.go:446-458 | Only the process field of the job changes: command stored, then process started. |
| Jobs.Created | main.go:264-267 | The new id is added, with a zero-valued job. Every other job is unchanged. |
| Jobs.NoCreateRuns | main.go:60-63 | Steps that create no job can always run: each one finds its job or ignores the id. |
| Jobs.RunEvolves | main.go:85-99 | Under any enabled sequence of steps, no job disappears and no canceled job is un-canceled. |
| Jobs.CanceledNeverReady | main.go:92-96 | A job canceled before it completed stays canceled and never becomes ready, whatever steps follow. |
| Jobs.CancelAfterFinish | main.go:85-99 | Canceling a job after it completed leaves it both ready and canceled. |
| Jobs.CanceledJobKeepsPath | main.go:91-92 | finishJob on a canceled job still records the file path, and does not set ready. |
| Jobs.ProgressStepsKeep | main.go:69-83 | Any number of setJobPercent and setJobStage steps, in any order, change only stages and percents. Every job keeps its error, file, ready and canceled flags and process, and no job appears or disappears. |
| Jobs.Table.constructor | main.go:60-61 | The table starts empty. |
| Jobs.Table.SetJobPercent | main.go:69-75 | The new table is WithPercent of the old one. |
| Jobs.Table.SetJobStage | main.go:77-83 | The new table is WithStage of the old one. This covers the source's `Stage != st` guard. |
| Jobs.Table.FinishJob | main.go:85-99 | The new table is Finished of the old one. |
| Jobs.Table.SetJobProc | main.go:446-450 | The new table is WithProc of the old one. |
| Jobs.Table.Insert | main.go:264-267 | The new table is Created of the old one. |
| Jobs.Table.Lookup | main.go:354-356 | Returns the job exactly when the id is in the table. |
| Progress.DigitRun | main.go:369 | The maximal run of digits starting at a position. |
| Progress.ProgressMatchAtSound | main.go:369 | A match that the hand-written matcher reports at a position is a `(\d{1,3}(?:\.\d+)?)%` token there. |
| Progress.ProgressMatchAtComplete | main.go:369 | Any token at a position is the one the matcher reports there. |
| Progress.ProgressMatchUnique | main.go:369 | At any position there is at most one token end, so leftmost-first matching is determined. |
| Progress.FindProgressFromCorrect | main.go:512 | Scanning from a position finds the leftmost token start at or after it, or reports that there is none. |
| Progress.FindProgress | main.go:512 | The match found is a token, and no token starts further left. None means the line has no token at all. |
| Progress.LinePercent | main.go:512-516 | A percent is produced exactly when the line holds a token. The percent is always in 0..999, so there is no clamping to 100. |
| Progress.LinePercentValue | main.go:512-514 | The percent is the value of the 1 to 3 integer digits of the leftmost token. The fraction is dropped, as int(ParseFloat) does. |
| Progress.IntegerPart | main.go:369 | A token's integer part has 1 to 3 digits and is followed by '.' or '%'. |
| Progress.ExtRun | main.go:370 | The maximal run of `[a-z0-9]` characters. |
| Progress.LastExtDot | main.go:370 | Finds the rightmost '.' directly followed by `[a-z0-9]` in a range, or reports that there is none. |
| Progress.LineEnd | main.go:370 | The end of the text that `.*` may cover, which is the next newline. |
| Progress.DestMatchAtCorrect | main.go:370 | For a fixed "Destination: " start, the greedy `.*` picks the rightmost qualifying dot and the maximal extension run; None means no match from that start. |
| Progress.FindDestFromCorrect | main.go:498 | The leftmost "Destination: " occurrence that yields a match is the one found, or there is none. |
| Progress.FindDest | main.go:498 | The match is leftmost. None means the line has no destRe match. |
| Progress.DestExt | main.go:498-499 | An extension is captured exactly when destRe matches. It is the captured group of the match FindDest returns: the text from just after the rightmost qualifying dot to the end of the maximal `[a-z0-9]` run, which is non-empty. |
| Progress.ExtStage | main.go:500-505 | mp4 and webm give the video stage, exactly. m4a, mp3 and opus give the audio stage, exactly. Any other extension gives no stage. |
| Progress.ApplyLineEffect | main.go:498-516 | One line changes only the stage and percent of its job. The merge marker ("Merging" or "ffmpeg") overrides a destination stage on the same line. A line without a percent keeps the old percent. |
| Progress.ReadLinesShape | main.go:495-519 | The lines ReadString returns: every line but the last ends in its only newline, and the last has none (it may be empty). |
| Progress.ReadLinesConcat | main.go:495-519 | The lines put back together are exactly the stream's text, so nothing is lost or duplicated. |
| Progress.HandleLine | main.go:498-516 | One pass of the loop body: the table becomes ApplyLine of the old one. |
| Progress.ParseProgress | main.go:493-521 | The loop handles every line, including the trailing one without a newline, and stops at the end. The table becomes ApplyLines over ReadLines of the text. |
| Progress.ApplyLinesEffect | main.go:493-521 | A whole stream changes only its job's stage and percent. They become the stage the lines leave and the percent of the last line that had one. |
| Progress.PercentAfterLinesBound | main.go:512-516 | After a stream the percent is the old one or in 0..999. With no matching line it is the old one. |
| Stream.Wire | main.go:334-345 | Every SSE event ends in a blank line. |
| Stream.DataWireReadBack | main.go:334 | A `data:` event carries the job's percent as decimal text that reads back to it. |
| Stream.Poll | main.go:323-345 | Canceled is checked first, then Err, each giving its one error event. Otherwise the turn writes exactly three things, in this order and nothing else: the percent; a stage event carrying the job's own stage, exactly when that stage is non-empty and new to this client; and ready, exactly when the job is ready. lastStage moves to the job's stage exactly when a non-empty stage is read, and the turn ends the stream exactly when the job is canceled, failed or ready. |
| Stream.PollStages | main.go:335-338 | The stages one turn sends: the snapshot's own stage when it is new to this client and the job is neither canceled nor failed, and none otherwise. |
| Stream.PollShape | pb_routes.go:89-119 | Within a turn, the terminal event is the last one, and it appears only in a turn that ends the stream. Ready directly follows the percent, or the stage event after it. |
| Stream.RunAt | main.go:305-347 | One iteration of the poll loop, taken at any position of the snapshots. |
| Stream.Turn | pb_routes.go:89-119 | The loop body with the job found computes Poll. |
| Stream.ProgressStream | main.go:300-348 | The handler loop produces the events and ending that Run defines, covering the missing job, the terminal event and the client leaving. |
| Stream.TerminalIsLast | main.go:323-345 | On any stream the terminal event comes last and at most once. The stream terminates exactly when it ends in a terminal event. |
| Stream.ReadyFollowsData | main.go:334-345 | Every ready event is preceded in its own turn by the percent, with at most the stage event between them. |
| Stream.RunStagesFresh | main.go:335-338 | Each stage event differs from the one before it, and the first differs from the initial lastStage. |
| Stream.NoRepeatedStage | main.go:335-338 | On one stream no stage event is empty, and no two consecutive stage events carry the same stage. |
| Stream.StagesFromSnapshots | main.go:315-338 | Every stage event on a stream carries the stage of some job snapshot the loop read; no stage is made up. |
| Stream.UnknownJob | pb_routes.go:81-87 | An unknown id gets not-found and no event. |
| Stream.TerminalJobAtOnce | main.go:323-345 | A job that is already canceled, failed or ready gets one turn and the stream ends. |
| Stream.FailedJobReportsError | main.go:323-345 | A failed job that was not canceled has both Err and Ready set. Its stream still reports the error and never ready. |
| Stream.CancelWins | main.go:323-327 | Once a job is canceled, every later turn of its stream reports the cancellation, whatever steps follow. |
| Cookies.Fields | main.go:122-133 | A cookie gives seven fields in Netscape order: domain, host-only flag, path, secure flag, expiry, name, value. Each flag is TRUE or FALSE; the host-only flag is TRUE exactly when the domain starts with '.', and secure is TRUE exactly when Secure. The expiry field reads back as the expiry. |
| Cookies.Rows | main.go:121-134 | The header, then one row per cookie in input order. |
| Cookies.CookieFileSnoc | main.go:132-133 | One more cookie appends its row and a newline. |
| Cookies.JsonToNetscape | main.go:114-136 | A failed decode returns its error. Otherwise the builder loop produces the header line and one line per cookie, each ending in a newline. |
| Cookies.CookieFileLines | main.go:114-136 | Splitting the file on newlines gives the header, exactly one line per cookie, and an empty remainder. Each cookie's line splits on tabs back into its seven fields, provided no field holds a tab or newline. |
| Cookies.PrepareCases | main.go:139-159 | Empty input gives no file, exactly. A JSON export that fails to decode is an error. Otherwise the converted JSON, or the verbatim Netscape text, is written to cookies.txt in the working directory, unless the write fails. |
| Cookies.PrepareCookieFile | main.go:139-159 | The method computes Prepare. |
| Cookies.JsonDetection | main.go:145 | Leading white space before '[' still counts as JSON. Text whose first non-space character is anything else is treated as a Netscape file. |
| Worker.MediaOf | main.go:398-428 | "audio", "subs" and "thumb" pick their branches. Every other value, the empty one included, picks video. |
| Worker.StartStage | main.go:398-428 | Every branch sets a non-empty start stage. |
| Worker.VideoFormat | main.go:419-424 | The format has a `[height<=quality]` cap exactly when a quality is given. |
| Worker.SubLanguage | main.go:407-410 | The subtitle language defaults to "en" and is otherwise the one given. |
| Worker.LastMp4Spec | main.go:470-476 | The result is "" exactly when the walk saw no .mp4 file. Otherwise it is the path of the last .mp4 file walked. |
| Worker.FindFinal | main.go:468-476 | The WalkDir callback loop keeps the last .mp4 file path. |
| Worker.MediaOptions | main.go:375-428 | The method builds the base arguments and the argument list of the media branch, setting that branch's stage. |
| Worker.ReadPipes | main.go:460-461 | The two parseProgress readers apply the steps of stdout's lines, then those of stderr's lines. |
| Worker.Exit | main.go:463-488 | A failed Wait finishes the job with the error and yt-dlp's trimmed output. Otherwise the job finishes with the last .mp4 found. |
| Worker.Run | main.go:446-488 | From the start of the process to finishJob: a failed start finishes with its error; otherwise the steps are those of the pipes, then the exit. |
| Worker.CookieOptions | main.go:431-438 | Cookies are prepared only when some were pasted, in the job's folder. |
| Worker.Launch | main.go:431-488 | Appends `--cookies` when a cookie file exists, then the URL, stores the command and runs it. |
| Worker.DownloadJob | main.go:373-489 | downloadJob as a whole: the table changes by exactly DownloadSteps. The command launched is the one Launched describes; there is none when the cookies failed. |
| Worker.DownloadRuns | main.go:373-489 | The worker creates no job, so its steps can always run. |
| Worker.PipesEffect | main.go:460-461 | The progress lines touch only the stage and percent of their job. |
| Worker.BeforeLastStep | main.go:373-488 | Until its final finishJob, the worker changes only the stage, percent and process of its own job. |
| Worker.DownloadOutcome | main.go:373-489 | Every path ends in finishJob. A cookie failure ends with "cookies: …" and nothing launched. A start failure ends with its error. An exit failure ends with its error and the trimmed output. Success ends with the last .mp4 found. A job not canceled ends ready at 100 percent; a canceled one keeps its ready flag. |
| Worker.DownloadFrame | main.go:373-489 | The worker touches its own job only. An unknown id leaves the table unchanged. |
| Worker.PipesProgressOnly | main.go:460-461 | What the two readers do, and any tail of it, is made of stage and percent writes only. |
| Worker.LateReaders | main.go:460-488 | Reader steps that land after the final finishJob, whatever they are, keep the error, the file, the ready and canceled flags and the process the job ended with; only the stage and percent can move again. |
| Worker.CanceledDownloadNeverReady | main.go:92-96 | A job canceled before it completes is never ready, however its download ends. |
| Worker.CommandLineShape | main.go:391-440 | The URL is always the last argument. `--cookies` and its file come right before it exactly when a cookie file exists. The output template is the fifth argument. |
| Worker.QualityOptions | main.go:399-427 | `--audio-quality` appears exactly when a quality is given. The video format is the default exactly when none is given, and the height cap otherwise. |
| Worker.SubtitleLanguage | main.go:406-413 | Subtitles are requested in "en" unless another language is given. |
| Worker.CookieArguments | main.go:431-440 | Nothing is launched only when pasted cookies failed to prepare. Otherwise `--cookies <jobdir>/cookies.txt` appears exactly when cookies were pasted, and the URL is last. |
| Handlers.DefaultPostForm | pb_routes.go:270-276 | The result is the default exactly when the form value is empty, and the form value otherwise. |
| Handlers.DefaultPostFormIff | pb_routes.go:270-276 | The default comes back exactly when the field is missing, empty or equal to it. A non-empty default never gives "". |
| Handlers.GinDefaultPostForm | main.go:273 | gin's own DefaultPostForm: the posted value whenever the field is present, even empty, and the default only when it is absent. |
| Handlers.DefaultPostFormRules | main.go:273 | gin's rule and the PocketBase adapter's rule differ exactly on a field posted empty with a non-empty default; gin then returns "". |
| Handlers.SameDownload | pb_routes.go:233 | When `type` is posted, even empty, both front ends pass the same request. When it is absent, Gin passes "video" and PocketBase passes "", and both reach the video branch, so the same download starts. |
| Handlers.StartDownload | main.go:257-279 | An empty url gets the error and leaves the table alone. Otherwise exactly the new job is inserted and its id is returned. |
| Handlers.StartDownloadGin | main.go:257-279 | The start handler with gin's DefaultPostForm on `type`: "video" only when the field is absent. |
| Handlers.StartDownloadPB | pb_routes.go:218-239 | The start handler with `type` taken as posted. |
| Handlers.StartAddsOneJob | pb_routes.go:224-227 | A fresh uuid adds exactly one zero-valued job, the table grows by one, and every other job is as it was. |
| Handlers.CancelDownload | pb_routes.go:241-253 | A known job gets canceled and "canceled" is answered; Kill is called exactly when a process was started. An unknown id gets not-found and the table is unchanged. |
| Handlers.ServeFile | pb_routes.go:125-136 | Not-found exactly when the job is missing or has no file. Otherwise the file is sent under its base name. |
| Handlers.NothingToServe | main.go:470-488 | A download whose folder holds no .mp4 leaves nothing to serve, even when it succeeded. This covers audio, subtitle and thumbnail jobs. |
| Handlers.CancelIdempotent | main.go:283-291 | Canceling twice is the same as canceling once. |
| Info.CollectQualities | pb_routes.go:180-188 | The loop fills the height set with the heights of the video formats (all positive), and the audio set with the labels of the audio-only formats. |
| Info.Elements | pb_routes.go:189-192 | Copying a set into an array keeps exactly its elements, each once. |
| Info.SortDescending | pb_routes.go:193 | The in-place sort leaves the array descending and a permutation of what it was. |
| Info.SortStrings | pb_routes.go:194-203 | sort.Strings leaves the array ascending in byte order and a permutation of what it was. |
| Info.DescendingUnique | pb_routes.go:189-193 | There is only one strictly descending list of a given set of heights. |
| Info.AscendingUnique | pb_routes.go:194-203 | There is only one strictly ascending list of a given set of strings. |
| Info.SortedHeights | pb_routes.go:189-193 | The height list is strictly descending and holds exactly the heights of the set. |
| Info.SortedStrings | pb_routes.go:194-203 | The list is strictly ascending and holds exactly the strings of the set. |
| Info.RenderedReadBack | pb_routes.go:189-192 | Each rendered quality reads back as its height. |
| Info.RenderHeights | pb_routes.go:189-192 | The loop renders each height with %d, in order. |
| Info.ChooseThumb | pb_routes.go:205-208 | The thumbnail is the last element of Thumbnails when that list is non-empty, and Thumbnail otherwise. |
| Info.SummaryUnique | pb_routes.go:180-214 | The summary does not depend on Go's map iteration order: exactly one response summarises a decoded info. |
| Info.VideoQualitiesFromFormats | pb_routes.go:180-193 | Each offered video quality is the height of some video format, and none is offered twice. |
| Info.Summarize | pb_routes.go:180-214 | Builds the response: the title; the thumbnail; heights highest first; audio labels and subtitle languages sorted, each once. |
| Info.InfoArgsShape | pb_routes.go:154-158 | The `-J` call starts with its three flags and ends with the URL. `--cookies` and its file are present exactly when a cookie file exists. |
| Info.InfoCommand | main.go:187-191 | The argument list built by appends is InfoArgs. |
| Info.GetInfo | main.go:169-253 | An empty url gets 400 "url requerida". A cookie failure gets 400 with its message. A failed run gets 400 with the error and the trimmed output. A failed decode gets 500. Otherwise the answer summarises the decoded info. yt-dlp runs with the -J arguments exactly when it is reached. |
| Strings.SplitJoin | main.go:114-136 | strings.Split undoes a join whose parts do not contain the separator. |
| Strings.StrLessTransitive | pb_routes.go:194-203 | The byte order sort.Strings uses is transitive. |
| Strings.StrLessTotal | pb_routes.go:194-203 | Any two distinct strings are ordered. |
| Strings.TrimSpace | main.go:145 | The trimmed text is a slice of the input, with only white space removed at either end and none left there. |
| Strings.TrimSpacePrefix | main.go:145 | Trimming at both ends or only on the left decides the same '[' test. |
| Decimal.IntToStringRoundTrip | main.go:131-133 | `%d` output reads back as the same integer, negative ones included. |
| Decimal.NatToStringValue | main.go:334 | The decimal digits of a natural have its value. |
| Paths.JoinPathShape | main.go:154 | Joining gives the directory, a slash, then the element. |
| Paths.ExtMp4 | main.go:472 | filepath.Ext is ".mp4" exactly when the path ends in ".mp4". |
| Paths.Base | main.go:361 | An empty path gives "." and a path of slashes gives "/". Otherwise, once trailing slashes are stripped, the result is the whole last element: it ends the path, has no slash, and is the whole path or follows a slash. |
| Paths.BaseOfJoin | main.go:361 | Base undoes JoinPath: the base name of a directory joined with a plain name is that name. |

## Left out

- Concurrency: goroutines and `sync.RWMutex` are left out. Each locked block is one atomic step, and the `Step` language describes any interleaving of them. The unlocked reads of the shared `*jobInfo` in the stream loops (main.go:315-341) are a data race, and are modelled as whole-job snapshots.
- Process control is left out: `exec.Command`, `Start`, `Wait`, `Kill` and the pipes. Their outcomes are fields of `Worker.World`. Kill is a boolean the cancel handler returns.
- The two `parseProgress` goroutines run side by side in the code. The model reads stdout's lines, then stderr's. Other orders of these steps among themselves are not modelled.
- Worker.Run: `cmd.Wait` does not wait for the two readers (main.go:460-463), so lines they still hold can reach `setJobStage`/`setJobPercent` after the final `finishJob`. The model puts every reader step before the exit. `Worker.LateReaders` covers late steps only for the fields they cannot touch.
- Worker.DownloadOutcome: its percent of 100 and its completed stage hold for the model's schedule only. A late reader line can set the percent or the stage again after `finishJob`; for example, an audio destination line puts back "Descargando audio…". The stream's last turn may then send that stage before ready. The error, file, ready and canceled flags and process it states hold under any late steps (`Worker.LateReaders`).
- Time and the filesystem are left out: the `time.Sleep` size-stability check (main.go:479-486), `os.MkdirAll`, `os.MkdirTemp`, `os.RemoveAll` and the cleanup callbacks. The `filepath.WalkDir` order is the `walked` parameter, and the outcome of `os.WriteFile` is a parameter.
- Progress.LinePercent: the integer part of the digits stands in for `int(strconv.ParseFloat(..))`. Rounding of very long fractions, such as "99.99999999999999999%" giving 100, is not modelled. So the model's 0..999 bound is not the source's: "999.99999999999999999%" parses to 1000.0 there and stores 1000.
- Cookies.Cookie: the expiry is taken as the already-rounded `int64(Expiry + 0.5)`. Floating point is not modelled.
- Info.Format: the `%.0f` label of audio bitrates, and the `Abr > 0` test, are taken as inputs.
- The JSON decodes of the pasted cookies and of yt-dlp's output are left out, and so is JSON encoding of the responses. Decoded records come in as `Result` parameters. A nil versus an empty slice in the JSON response is not distinguished.
- `uuid.New` is the `id` parameter; its freshness is the `id !in m` requirement of `Handlers.StartAddsOneJob`.
- Paths.JoinPath: `filepath.Join`'s cleaning of `.`, `..` and doubled slashes is not modelled, nor its dropping of empty elements. The worker joins only clean literal names and a uuid. The info handler ignores the error of `os.MkdirTemp` (main.go:177), so its directory can be "". Go then writes "cookies.txt" in the working directory, where the model says "/cookies.txt".
- The diagnostics the worker reports after a failed `Wait` are whatever `io.ReadAll(stderr)` returns at that point. They are the `diag` parameter, independent of what the progress readers consumed.
- Strings.StrLess: the order is defined on code points. Go compares bytes, which gives the same order on valid UTF-8.
- Info.SortDescending: an insertion sort stands in for `sort.Sort(sort.Reverse(..))`, and Info.SortStrings for `sort.Strings`. The sorted result is unique (`Info.DescendingUnique`, `Info.AscendingUnique`), so the algorithm does not matter.
- Go's random map iteration order, when filling the lists to sort, is modelled by an arbitrary choice of element.
- Left out: the UI (`static/main.js`), `pb_main.go`, `main()`, route registration, template and static serving, `ParseForm`, and the gin/PocketBase request and response plumbing beyond `DefaultPostForm`.
- `Cmd` is never cleared in the code. The model's `proc` field keeps NoCmd, CmdBuilt or ProcStarted in the same way.

## Where the code and its description differ

The model follows the code in each case:

- `finishJob` sets `FilePath` even for a canceled job (`Jobs.CanceledJobKeepsPath`). A canceled job that completed cleanly therefore still has a file to serve.
- The percent is not clamped: a line such as "250%" stores 250, and in the model any value below 1000 can appear (`Progress.LinePercent`); the source can also store 1000 through float rounding.
- The final file is the last `.mp4` walked, so audio, subtitle and thumbnail jobs end with no file to serve (`Handlers.NothingToServe`).
- The info handler answers "url requerida", while the start handlers answer "URL requerida".
