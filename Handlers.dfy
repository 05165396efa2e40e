/** The HTTP handlers that touch the job table: starting a download,
    canceling it and serving its file, in their Gin and PocketBase forms.
    The JSON bodies are single-key objects. */
module Handlers {
  import opened Wrappers
  import opened Paths
  import opened Jobs
  import opened Worker

  /** The first value of each posted form field. */
  type Form = map<string, string>

  /** FormValue / PostForm: the field's value, "" when it is absent. */
  function FormValue(f: Form, key: string): string
  {
    if key in f then f[key] else ""
  }

  /** ginContextAdapter.DefaultPostForm: the field, or `val` when it is empty. */
  function DefaultPostForm(f: Form, key: string, val: string): (r: string)
    ensures FormValue(f, key) == "" ==> r == val
    ensures FormValue(f, key) != "" ==> r == FormValue(f, key)
  {
    var s := FormValue(f, key);
    if s == "" then val else s
  }

  /** The default comes back exactly when the field is missing, empty or
      already equal to it, and a non-empty default never yields an empty
      value. */
  lemma DefaultPostFormIff(f: Form, key: string, val: string)
    ensures DefaultPostForm(f, key, val) == val <==> (key !in f || f[key] == "" || f[key] == val)
    ensures val != "" ==> DefaultPostForm(f, key, val) != ""
  {
  }

  /** gin's own Context.DefaultPostForm: the posted value whenever the field
      is present, even when it is empty; `val` only when it is absent. */
  function GinDefaultPostForm(f: Form, key: string, val: string): (r: string)
    ensures key in f ==> r == f[key]
    ensures key !in f ==> r == val
  {
    if key in f then f[key] else val
  }

  /** The two DefaultPostForm rules differ on one case only: a field posted
      empty comes back empty from gin and as the default from the adapter. */
  lemma DefaultPostFormRules(f: Form, key: string, val: string)
    ensures GinDefaultPostForm(f, key, val) != DefaultPostForm(f, key, val) <==>
      key in f && f[key] == "" && val != ""
    ensures key in f && f[key] == "" ==> GinDefaultPostForm(f, key, val) == ""
  {
  }

  /** An HTTP answer: a one-key JSON object, or a file sent as an attachment. */
  datatype Response =
    | Json(status: int, key: string, value: string)
    | Attachment(path: string, name: string)

  const MissingUrl := Json(400, "error", "URL requerida")

  /** The arguments startDownloadGin hands to downloadJob: `type` defaults
      to "video" only when it is not posted at all. */
  function GinRequest(f: Form): Request
  {
    Request(FormValue(f, "url"), FormValue(f, "cookies"), GinDefaultPostForm(f, "type", "video"),
            FormValue(f, "quality"), FormValue(f, "sub_lang"))
  }

  /** The arguments startDownloadPB hands to downloadJob: `type` has no default. */
  function PBRequest(f: Form): Request
  {
    Request(FormValue(f, "url"), FormValue(f, "cookies"), FormValue(f, "type"),
            FormValue(f, "quality"), FormValue(f, "sub_lang"))
  }

  /** The missing default of startDownloadPB does not matter: the two
      handlers pass the same type unless it is not posted, and then "video"
      and "" both reach the video branch, so both start the same download. */
  lemma SameDownload(f: Form)
    ensures "type" in f ==> GinRequest(f) == PBRequest(f)
    ensures "type" !in f ==> GinRequest(f).media == "video" && PBRequest(f).media == ""
    ensures MediaOf(GinRequest(f).media) == MediaOf(PBRequest(f).media)
    ensures GinRequest(f).(media := PBRequest(f).media) == PBRequest(f)
  {
    if "type" !in f {
      assert MediaOf("video") == Video && MediaOf("") == Video;
    }
  }

  /** The shared body of both start handlers; `id` is the uuid the handler
      draws and `request` what it passes to downloadJob. Returns the
      request of the download it starts, None when it starts none. */
  method StartDownload(t: Table, url: string, id: string, request: Request)
    returns (resp: Response, started: Option<Request>)
    modifies t
    ensures url == "" ==> resp == MissingUrl && started == None && t.jobs == old(t.jobs)
    ensures url != "" ==>
      t.jobs == Created(old(t.jobs), id) && resp == Json(200, "job", id) && started == Some(request)
  {
    if url == "" {
      return MissingUrl, None;
    }
    t.Insert(id);
    // go downloadJob(...)
    return Json(200, "job", id), Some(request);
  }

  /** startDownloadGin */
  method StartDownloadGin(t: Table, f: Form, id: string) returns (resp: Response, started: Option<Request>)
    modifies t
    ensures FormValue(f, "url") == "" ==> resp == MissingUrl && started == None && t.jobs == old(t.jobs)
    ensures FormValue(f, "url") != "" ==>
      t.jobs == Created(old(t.jobs), id) && resp == Json(200, "job", id) && started == Some(GinRequest(f))
  {
    resp, started := StartDownload(t, FormValue(f, "url"), id, GinRequest(f));
  }

  /** startDownloadPB */
  method StartDownloadPB(t: Table, f: Form, id: string) returns (resp: Response, started: Option<Request>)
    modifies t
    ensures FormValue(f, "url") == "" ==> resp == MissingUrl && started == None && t.jobs == old(t.jobs)
    ensures FormValue(f, "url") != "" ==>
      t.jobs == Created(old(t.jobs), id) && resp == Json(200, "job", id) && started == Some(PBRequest(f))
  {
    resp, started := StartDownload(t, FormValue(f, "url"), id, PBRequest(f));
  }

  /** With a fresh uuid, a start adds exactly one job, zero-valued, under
      the id it answers with, and leaves every other job as it was. */
  lemma StartAddsOneJob(m: JobMap, id: string)
    requires id !in m
    ensures var r := Created(m, id);
      && r.Keys - m.Keys == {id}
      && |r.Keys| == |m.Keys| + 1
      && r[id] == NewJob && !r[id].ready && !r[id].canceled && r[id].filePath == ""
      && forall k :: k in m ==> r[k] == m[k]
  {
    var r := Created(m, id);
    assert r.Keys == m.Keys + {id};
  }

  /** cancelDownloadGin and cancelDownloadPB, under the write lock: raise
      the flag, kill the process if it was started. `killed` tells whether
      Kill was called. */
  method CancelDownload(t: Table, id: string) returns (resp: Response, killed: bool)
    modifies t
    ensures t.jobs == Canceled(old(t.jobs), id)
    ensures killed <==> id in old(t.jobs) && old(t.jobs)[id].proc == ProcStarted
    ensures id in old(t.jobs) ==> resp == Json(200, "status", "canceled")
    ensures id !in old(t.jobs) ==> resp == Json(404, "error", "job no encontrado")
  {
    killed := false;
    if id in t.jobs {
      var job := t.jobs[id];
      t.jobs := t.jobs[id := job.(canceled := true)];
      if job.proc == ProcStarted {
        killed := true;
      }
      return Json(200, "status", "canceled"), killed;
    }
    return Json(404, "error", "job no encontrado"), killed;
  }

  /** serveFileGin and serveFilePB: the job's file under its base name, or
      not-found when there is no job or no file. */
  method ServeFile(t: Table, id: string) returns (resp: Response)
    ensures resp.Json? <==> id !in t.jobs || t.jobs[id].filePath == ""
    ensures resp.Json? ==> resp == Json(404, "error", "archivo no disponible")
    ensures resp.Attachment? ==> resp.path == t.jobs[id].filePath && resp.name == Base(resp.path)
  {
    var job := t.Lookup(id);
    if job.None? || job.value.filePath == "" {
      return Json(404, "error", "archivo no disponible");
    }
    return Attachment(job.value.filePath, Base(job.value.filePath));
  }

  /** A download whose folder holds no .mp4 (an audio, subtitle or
      thumbnail job, or a failed one) leaves nothing to serve, even when it
      completed without error. */
  lemma NothingToServe(m: JobMap, id: string, req: Request, w: World)
    requires id in m && LastMp4(w.walked) == ""
    ensures id in ApplyAll(m, DownloadSteps(id, req, w))
    ensures ApplyAll(m, DownloadSteps(id, req, w))[id].filePath == ""
  {
    DownloadOutcome(m, id, req, w);
  }

  /** Canceling twice changes the table no more than canceling once. */
  lemma CancelIdempotent(m: JobMap, id: string)
    ensures Canceled(Canceled(m, id), id) == Canceled(m, id)
  {
  }
}
