/** The job record (`jobInfo`) and the job table (`jobs`, guarded by `jobsMu`).
    Every locked block of the Go code is one atomic step here: a pure
    transition on the map, and a method of `Table` that performs it. */
module Jobs {
  import opened Wrappers

  /** What a job holds of its yt-dlp process: no `Cmd` yet, a `Cmd`
      stored but not started (`Cmd.Process == nil`), or a started one. */
  datatype Proc = NoCmd | CmdBuilt | ProcStarted

  datatype Job = Job(
    proc: Proc,
    filePath: string,
    percent: int,
    stage: string,
    err: string,
    canceled: bool,
    ready: bool)

  /** `&jobInfo{}`: every field at its zero value. */
  const NewJob := Job(NoCmd, "", 0, "", "", false, false)

  /** The stage label finishJob writes. */
  const CompletedStage := "Completado \U{2714}"

  type JobMap = map<string, Job>

  /** setJobPercent: overwrite the percent of an existing job, whatever it was. */
  function WithPercent(m: JobMap, id: string, p: int): (r: JobMap)
    ensures id !in m ==> r == m
    ensures r.Keys == m.Keys
    ensures forall k :: k in m && k != id ==> r[k] == m[k]
    ensures id in m ==> r[id].percent == p && r[id].(percent := m[id].percent) == m[id]
  {
    if id in m then m[id := m[id].(percent := p)] else m
  }

  /** setJobStage: the stage of an existing job becomes `st`. */
  function WithStage(m: JobMap, id: string, st: string): (r: JobMap)
    ensures id !in m ==> r == m
    ensures r.Keys == m.Keys
    ensures forall k :: k in m && k != id ==> r[k] == m[k]
    ensures id in m ==> r[id].stage == st && r[id].(stage := m[id].stage) == m[id]
  {
    if id in m && m[id].stage != st then m[id := m[id].(stage := st)] else m
  }

  /** finishJob: record the error (if any) and the path; complete the job
      unless it was canceled. */
  function Finished(m: JobMap, id: string, path: string, err: Option<string>): (r: JobMap)
    ensures id !in m ==> r == m
    ensures r.Keys == m.Keys
    ensures forall k :: k in m && k != id ==> r[k] == m[k]
    ensures id in m ==>
      && r[id].err == (if err.Some? then err.value else m[id].err)
      && r[id].filePath == path
      && r[id].canceled == m[id].canceled
      && r[id].proc == m[id].proc
    ensures id in m && !m[id].canceled ==>
      r[id].percent == 100 && r[id].stage == CompletedStage && r[id].ready
    ensures id in m && m[id].canceled ==>
      r[id].percent == m[id].percent && r[id].stage == m[id].stage && r[id].ready == m[id].ready
  {
    if id !in m then m
    else
      var j := m[id];
      var j1 := if err.Some? then j.(err := err.value) else j;
      var j2 := j1.(filePath := path);
      m[id := if j.canceled then j2 else j2.(percent := 100, stage := CompletedStage, ready := true)]
  }

  /** The cancel handler's update: raise the sticky flag, nothing else. */
  function Canceled(m: JobMap, id: string): (r: JobMap)
    ensures id !in m ==> r == m
    ensures r.Keys == m.Keys
    ensures forall k :: k in m && k != id ==> r[k] == m[k]
    ensures id in m ==> r[id].canceled && r[id].(canceled := m[id].canceled) == m[id]
  {
    if id in m then m[id := m[id].(canceled := true)] else m
  }

  /** downloadJob storing its `Cmd`, and `Start` giving it a process. */
  function WithProc(m: JobMap, id: string, p: Proc): (r: JobMap)
    ensures id !in m ==> r == m
    ensures r.Keys == m.Keys
    ensures forall k :: k in m && k != id ==> r[k] == m[k]
    ensures id in m ==> r[id].proc == p && r[id].(proc := m[id].proc) == m[id]
  {
    if id in m then m[id := m[id].(proc := p)] else m
  }

  /** The creation step of the start handlers: a zero-valued job under
      `id`, replacing any job already there. */
  function Created(m: JobMap, id: string): (r: JobMap)
    ensures r.Keys == m.Keys + {id}
    ensures r[id] == NewJob
    ensures forall k :: k in m && k != id ==> r[k] == m[k]
  {
    m[id := NewJob]
  }

  /** Every locked step any goroutine or handler takes on the table. */
  datatype Step =
    | SetPercent(id: string, p: int)
    | SetStage(id: string, st: string)
    | Finish(id: string, path: string, e: Option<string>)
    | Cancel(id: string)
    | SetProc(id: string, proc: Proc)
    | Create(id: string)

  /** A step the Go code can take: uuid.New never repeats an id. */
  predicate Enabled(m: JobMap, s: Step)
  {
    s.Create? ==> s.id !in m
  }

  function Apply(m: JobMap, s: Step): JobMap
  {
    match s
    case SetPercent(id, p) => WithPercent(m, id, p)
    case SetStage(id, st) => WithStage(m, id, st)
    case Finish(id, path, e) => Finished(m, id, path, e)
    case Cancel(id) => Canceled(m, id)
    case SetProc(id, p) => WithProc(m, id, p)
    case Create(id) => Created(m, id)
  }

  /** The steps, applied in order, are all enabled. */
  predicate Runs(m: JobMap, steps: seq<Step>)
    decreases |steps|
  {
    steps == [] || (Enabled(m, steps[0]) && Runs(Apply(m, steps[0]), steps[1..]))
  }

  function ApplyAll(m: JobMap, steps: seq<Step>): JobMap
    decreases |steps|
  {
    if steps == [] then m else ApplyAll(Apply(m, steps[0]), steps[1..])
  }

  /** Doing `a` and then `b` is doing `a + b`. */
  lemma {:induction false} ApplyAllAppend(m: JobMap, a: seq<Step>, b: seq<Step>)
    ensures ApplyAll(m, a + b) == ApplyAll(ApplyAll(m, a), b)
    decreases |a|
  {
    if a == [] {
      assert a + b == b;
    } else {
      assert (a + b)[0] == a[0] && (a + b)[1..] == a[1..] + b;
      ApplyAllAppend(Apply(m, a[0]), a[1..], b);
    }
  }

  lemma ApplyOne(m: JobMap, s: Step)
    ensures ApplyAll(m, [s]) == Apply(m, s)
  {
    assert [s][1..] == [];
  }

  /** One step, then the rest. */
  lemma ApplyCons(m0: JobMap, a: Step, rest: seq<Step>, m1: JobMap, m2: JobMap)
    requires m1 == Apply(m0, a) && m2 == ApplyAll(m1, rest)
    ensures m2 == ApplyAll(m0, [a] + rest)
  {
    assert ([a] + rest)[0] == a && ([a] + rest)[1..] == rest;
  }

  /** Some steps, then one more. */
  lemma ApplySnoc(m0: JobMap, steps: seq<Step>, z: Step, m1: JobMap, m2: JobMap)
    requires m1 == ApplyAll(m0, steps) && m2 == Apply(m1, z)
    ensures m2 == ApplyAll(m0, steps + [z])
  {
    ApplyAllAppend(m0, steps, [z]);
    ApplyOne(m1, z);
  }

  predicate NoCreate(steps: seq<Step>) { forall i :: 0 <= i < |steps| ==> !steps[i].Create? }

  lemma NoCreateAppend(a: seq<Step>, b: seq<Step>)
    requires NoCreate(a) && NoCreate(b)
    ensures NoCreate(a + b)
  {
    assert forall i :: |a| <= i < |a + b| ==> (a + b)[i] == b[i - |a|];
  }

  /** Steps that create no job can always be taken. */
  lemma {:induction false} NoCreateRuns(m: JobMap, steps: seq<Step>)
    requires NoCreate(steps)
    ensures Runs(m, steps)
    decreases |steps|
  {
    if steps != [] {
      NoCreateRuns(Apply(m, steps[0]), steps[1..]);
    }
  }

  /** Steps that only write a stage or a percent, as parseProgress does. */
  predicate ProgressOnly(steps: seq<Step>)
  {
    forall i :: 0 <= i < |steps| ==> steps[i].SetPercent? || steps[i].SetStage?
  }

  lemma ProgressOnlyAppend(a: seq<Step>, b: seq<Step>)
    requires ProgressOnly(a) && ProgressOnly(b)
    ensures ProgressOnly(a + b)
  {
  }

  /** Stage and percent writes, however many and whenever they land, leave
      every other field of every job as it was: the error, the file, the
      ready and canceled flags and the process. */
  lemma {:induction false} ProgressStepsKeep(m: JobMap, steps: seq<Step>)
    requires ProgressOnly(steps)
    ensures var r := ApplyAll(m, steps);
      && r.Keys == m.Keys
      && forall k :: k in m ==> r[k].(stage := m[k].stage, percent := m[k].percent) == m[k]
    decreases |steps|
  {
    if steps != [] {
      assert ProgressOnly(steps[1..]) by {
        forall i | 0 <= i < |steps[1..]|
          ensures steps[1..][i].SetPercent? || steps[1..][i].SetStage?
        {
          assert steps[1..][i] == steps[i + 1];
        }
      }
      ProgressStepsKeep(Apply(m, steps[0]), steps[1..]);
    }
  }

  /** What the table promises over time: no entry disappears, and a
      canceled job stays canceled. */
  ghost predicate Evolves(m0: JobMap, m1: JobMap)
  {
    && m0.Keys <= m1.Keys
    && forall k :: k in m0 && m0[k].canceled ==> m1[k].canceled
  }

  lemma StepEvolves(m: JobMap, s: Step)
    requires Enabled(m, s)
    ensures Evolves(m, Apply(m, s))
  {
  }

  lemma {:induction false} RunEvolves(m: JobMap, steps: seq<Step>)
    requires Runs(m, steps)
    ensures Evolves(m, ApplyAll(m, steps))
    decreases |steps|
  {
    if steps != [] {
      StepEvolves(m, steps[0]);
      RunEvolves(Apply(m, steps[0]), steps[1..]);
    }
  }

  /** A job canceled before it completed never becomes ready, whatever
      steps follow: finishJob leaves a canceled job's completion fields alone. */
  lemma {:induction false} CanceledNeverReady(m: JobMap, steps: seq<Step>, id: string)
    requires Runs(m, steps)
    requires id in m && m[id].canceled && !m[id].ready
    ensures id in ApplyAll(m, steps)
    ensures ApplyAll(m, steps)[id].canceled && !ApplyAll(m, steps)[id].ready
    decreases |steps|
  {
    if steps != [] {
      var m1 := Apply(m, steps[0]);
      assert id in m1 && m1[id].canceled && !m1[id].ready;
      CanceledNeverReady(m1, steps[1..], id);
    }
  }

  /** Unlike a cancellation that comes first, a completion that comes first
      is not undone by a later cancel: the job is then both ready and canceled. */
  lemma CancelAfterFinish(m: JobMap, id: string, path: string)
    requires id in m && !m[id].canceled
    ensures Canceled(Finished(m, id, path, None), id)[id].ready
    ensures Canceled(Finished(m, id, path, None), id)[id].canceled
  {
  }

  /** finishJob records the path even for a canceled job, so a canceled job
      without an error can still carry an artifact path. */
  lemma CanceledJobKeepsPath(m: JobMap, id: string, path: string)
    requires id in m && m[id].canceled && m[id].err == "" && path != ""
    ensures var r := Finished(m, id, path, None);
      r[id].canceled && r[id].err == "" && r[id].filePath == path && r[id].ready == m[id].ready
  {
  }

  /** The job table: `jobs` behind `jobsMu`, each method one locked block. */
  class Table {
    var jobs: JobMap

    constructor ()
      ensures jobs == map[]
    {
      jobs := map[];
    }

    /** setJobPercent */
    method SetJobPercent(id: string, p: int)
      modifies this
      ensures jobs == WithPercent(old(jobs), id, p)
    {
      if id in jobs {
        var j := jobs[id];
        jobs := jobs[id := j.(percent := p)];
      }
    }

    /** setJobStage */
    method SetJobStage(id: string, st: string)
      modifies this
      ensures jobs == WithStage(old(jobs), id, st)
    {
      if id in jobs && jobs[id].stage != st {
        var j := jobs[id];
        jobs := jobs[id := j.(stage := st)];
      }
    }

    /** finishJob; `err` is None for a nil error. */
    method FinishJob(id: string, path: string, err: Option<string>)
      modifies this
      ensures jobs == Finished(old(jobs), id, path, err)
    {
      if id in jobs {
        var j := jobs[id];
        if err.Some? {
          j := j.(err := err.value);
        }
        j := j.(filePath := path);
        if !j.canceled {
          j := j.(percent := 100, stage := CompletedStage, ready := true);
        }
        jobs := jobs[id := j];
      }
    }

    /** `j.Cmd = cmd` in downloadJob, and the process `Start` attaches to it. */
    method SetJobProc(id: string, p: Proc)
      modifies this
      ensures jobs == WithProc(old(jobs), id, p)
    {
      if id in jobs {
        var j := jobs[id];
        jobs := jobs[id := j.(proc := p)];
      }
    }

    /** `jobs[id] = &jobInfo{}` in the start handlers. */
    method Insert(id: string)
      modifies this
      ensures jobs == Created(old(jobs), id)
    {
      jobs := jobs[id := NewJob];
    }

    /** The read-locked lookup of the stream and file handlers. */
    method Lookup(id: string) returns (r: Option<Job>)
      ensures r.Some? <==> id in jobs
      ensures r.Some? ==> r.value == jobs[id]
    {
      if id in jobs {
        r := Some(jobs[id]);
      } else {
        r := None;
      }
    }
  }
}
