/** progressGin / progressPB: the server-sent-event loop. Each turn reads
    the job (or finds it missing), writes events, and either ends or sleeps.
    A stream is modelled by the successive snapshots it reads; when they run
    out, the client's request context is done and the loop returns. */
module Stream {
  import opened Wrappers
  import opened Decimal
  import opened Jobs

  datatype Event =
    | Data(percent: int)
    | StageChange(stage: string)
    | Ready(url: string)
    | Error(message: string)

  const CanceledMessage := "descarga cancelada"

  /** Where the ready event sends the client. */
  function DownloadUrl(id: string): string { "/download/" + id }

  predicate IsTerminal(e: Event) { e.Ready? || e.Error? }

  /** The bytes each event puts on the wire. */
  function Wire(e: Event): (w: string)
    ensures |w| >= 8 && w[|w| - 2..] == "\n\n"
  {
    match e
    case Data(p) => "data: " + IntToString(p) + "\n\n"
    case StageChange(st) => "event: stage\ndata: " + st + "\n\n"
    case Ready(u) => "event: ready\ndata: " + u + "\n\n"
    case Error(msg) => "event: error\ndata: " + msg + "\n\n"
  }

  /** A client reads the percent back from the data line. */
  lemma DataWireReadBack(p: int)
    ensures var w := Wire(Data(p)); w[..6] == "data: " && ParseInt(w[6..|w| - 2]) == Some(p)
  {
    var w := Wire(Data(p));
    assert w[6..|w| - 2] == IntToString(p);
    IntToStringRoundTrip(p);
  }

  datatype PollResult = PollResult(events: seq<Event>, lastStage: string, done: bool)

  /** One turn of the loop with the job present. Canceled is checked first,
      then Err; otherwise the percent, a stage event when the stage is new
      to this client, and the ready event if the job is ready. */
  function Poll(id: string, j: Job, lastStage: string): (r: PollResult)
    ensures j.canceled ==> r.events == [Error(CanceledMessage)] && r.done
    ensures !j.canceled && j.err != "" ==> r.events == [Error(j.err)] && r.done
    ensures !j.canceled && j.err == "" ==>
      r.events == [Data(j.percent)]
        + (if j.stage != "" && j.stage != lastStage then [StageChange(j.stage)] else [])
        + (if j.ready then [Ready(DownloadUrl(id))] else [])
    ensures !j.canceled && j.err == "" ==>
      && |r.events| >= 1 && r.events[0] == Data(j.percent)
      && r.done == j.ready
      && (IsTerminal(r.events[|r.events| - 1]) <==> j.ready)
      && (j.ready ==> r.events[|r.events| - 1] == Ready(DownloadUrl(id)))
    ensures (exists k :: 0 <= k < |r.events| && r.events[k].StageChange?) <==>
      (!j.canceled && j.err == "" && j.stage != "" && j.stage != lastStage)
    ensures r.lastStage == (if !j.canceled && j.err == "" && j.stage != "" then j.stage else lastStage)
    ensures r.done <==> (j.canceled || j.err != "" || j.ready)
  {
    if j.canceled then PollResult([Error(CanceledMessage)], lastStage, true)
    else if j.err != "" then PollResult([Error(j.err)], lastStage, true)
    else
      var isNew := j.stage != "" && j.stage != lastStage;
      var stage := if isNew then [StageChange(j.stage)] else [];
      var ready := if j.ready then [Ready(DownloadUrl(id))] else [];
      var events := [Data(j.percent)] + stage + ready;
      assert isNew ==> events[1].StageChange?;
      PollResult(events, if isNew then j.stage else lastStage, j.ready)
  }

  /** Within one turn, a terminal event comes last and only in a turn that
      ends the stream, and a ready event follows the percent (with at most
      the stage event between them). */
  lemma PollShape(id: string, j: Job, lastStage: string)
    ensures var ev := Poll(id, j, lastStage).events;
      && (forall k :: 0 <= k < |ev| ==>
            (IsTerminal(ev[k]) <==> Poll(id, j, lastStage).done && k == |ev| - 1))
      && (forall k :: 0 <= k < |ev| && ev[k].Ready? ==> AfterData(ev, k))
  {
  }

  /** How a stream ends: the job was missing (404), a terminal event was
      written, or the client went away. */
  datatype End = NotFound | Terminated | Disconnected

  datatype Outcome = Outcome(events: seq<Event>, end: End)

  /** The whole stream over a sequence of snapshots, with `lastStage`
      the stage last sent to this client. */
  function Run(id: string, snaps: seq<Option<Job>>, lastStage: string): Outcome
    decreases |snaps|
  {
    if snaps == [] then Outcome([], Disconnected)
    else match snaps[0]
      case None => Outcome([], NotFound)
      case Some(j) =>
        var p := Poll(id, j, lastStage);
        if p.done then Outcome(p.events, Terminated)
        else
          var rest := Run(id, snaps[1..], p.lastStage);
          Outcome(p.events + rest.events, rest.end)
  }

  /** One turn of Run, taken at position `i` of the snapshots. */
  lemma RunAt(id: string, snaps: seq<Option<Job>>, i: nat, lastStage: string)
    requires i < |snaps| && snaps[i].Some?
    ensures var p := Poll(id, snaps[i].value, lastStage);
      var rest := Run(id, snaps[i + 1..], p.lastStage);
      Run(id, snaps[i..], lastStage) ==
        if p.done then Outcome(p.events, Terminated) else Outcome(p.events + rest.events, rest.end)
  {
    assert snaps[i..][0] == snaps[i] && snaps[i..][1..] == snaps[i + 1..];
  }

  /** The body of the loop with the job found: the events written on this
      turn, the stage now last sent, and whether the handler returns. */
  method Turn(id: string, job: Job, lastStage: string) returns (sent: seq<Event>, newLast: string, done: bool)
    ensures PollResult(sent, newLast, done) == Poll(id, job, lastStage)
  {
    newLast := lastStage;
    if job.canceled {
      return [Error(CanceledMessage)], newLast, true;
    }
    if job.err != "" {
      return [Error(job.err)], newLast, true;
    }
    sent := [Data(job.percent)];
    if job.stage != "" && job.stage != lastStage {
      sent := sent + [StageChange(job.stage)];
      newLast := job.stage;
    }
    done := job.ready;
    if job.ready {
      sent := sent + [Ready(DownloadUrl(id))];
    }
  }

  /** The loop of progressGin and progressPB. */
  method ProgressStream(id: string, snaps: seq<Option<Job>>) returns (events: seq<Event>, end: End)
    ensures Outcome(events, end) == Run(id, snaps, "")
  {
    var lastStage := "";
    events := [];
    var i := 0;
    while true
      invariant 0 <= i <= |snaps|
      invariant Run(id, snaps, "").events == events + Run(id, snaps[i..], lastStage).events
      invariant Run(id, snaps, "").end == Run(id, snaps[i..], lastStage).end
      decreases |snaps| - i
    {
      if i == |snaps| {
        // the request context is done
        end := Disconnected;
        return;
      }
      var snap := snaps[i];
      if snap.None? {
        assert snaps[i..][0] == snap;
        end := NotFound;
        return;
      }
      RunAt(id, snaps, i, lastStage);
      var sent, done;
      sent, lastStage, done := Turn(id, snap.value, lastStage);
      events := events + sent;
      if done {
        end := Terminated;
        return;
      }
      i := i + 1;
    }
  }

  /* ------------------------------ properties ------------------------------ */

  /** No event but the last is terminal. */
  predicate TerminalOnlyLast(ev: seq<Event>)
  {
    forall k :: 0 <= k < |ev| && IsTerminal(ev[k]) ==> k == |ev| - 1
  }

  predicate EndsTerminal(ev: seq<Event>) { |ev| > 0 && IsTerminal(ev[|ev| - 1]) }

  /** Events without a terminal one, put in front, change neither property. */
  lemma PrefixNoTerminal(a: seq<Event>, b: seq<Event>)
    requires |a| > 0 && forall k :: 0 <= k < |a| ==> !IsTerminal(a[k])
    requires TerminalOnlyLast(b)
    ensures TerminalOnlyLast(a + b)
    ensures EndsTerminal(a + b) <==> EndsTerminal(b)
  {
    assert forall k :: |a| <= k < |a| + |b| ==> (a + b)[k] == b[k - |a|];
    assert forall k :: 0 <= k < |a| ==> (a + b)[k] == a[k];
  }

  /** Exactly one terminal event when the stream terminates, and it is the
      last event; no terminal event otherwise. */
  lemma {:induction false} TerminalIsLast(id: string, snaps: seq<Option<Job>>, lastStage: string)
    ensures var o := Run(id, snaps, lastStage);
      TerminalOnlyLast(o.events) && (o.end == Terminated <==> EndsTerminal(o.events))
    decreases |snaps|
  {
    if snaps != [] && snaps[0].Some? {
      var p := Poll(id, snaps[0].value, lastStage);
      PollShape(id, snaps[0].value, lastStage);
      if !p.done {
        TerminalIsLast(id, snaps[1..], p.lastStage);
        PrefixNoTerminal(p.events, Run(id, snaps[1..], p.lastStage).events);
      }
    }
  }

  /** The event before position `k` is the percent, or the stage event
      with the percent before it. */
  predicate AfterData(ev: seq<Event>, k: nat)
  {
    k >= 1 && k <= |ev| && (ev[k - 1].Data? || (k >= 2 && ev[k - 1].StageChange? && ev[k - 2].Data?))
  }

  /** A ready event is always preceded, in the same turn, by the percent
      (with at most the stage event between them). */
  lemma {:induction false} ReadyFollowsData(id: string, snaps: seq<Option<Job>>, lastStage: string)
    ensures var ev := Run(id, snaps, lastStage).events;
      forall k :: 0 <= k < |ev| && ev[k].Ready? ==> AfterData(ev, k)
    decreases |snaps|
  {
    if snaps != [] && snaps[0].Some? {
      var p := Poll(id, snaps[0].value, lastStage);
      PollShape(id, snaps[0].value, lastStage);
      if !p.done {
        ReadyFollowsData(id, snaps[1..], p.lastStage);
        var rest := Run(id, snaps[1..], p.lastStage).events;
        var ev := p.events + rest;
        assert var ev := Run(id, snaps[1..], p.lastStage).events;
          forall k :: 0 <= k < |ev| && ev[k].Ready? ==> AfterData(ev, k);
        forall k | 0 <= k < |ev| && ev[k].Ready?
          ensures AfterData(ev, k)
        {
          assert k >= |p.events|;
          assert ev[k] == rest[k - |p.events|];
          var k' := k - |p.events|;
          assert AfterData(rest, k');
          assert ev[k - 1] == rest[k' - 1];
          if k' >= 2 {
            assert ev[k - 2] == rest[k' - 2];
          }
        }
      }
    }
  }

  /** The stage values the stream sends, in order. */
  function StageValues(events: seq<Event>): seq<string>
  {
    if events == [] then []
    else (if events[0].StageChange? then [events[0].stage] else []) + StageValues(events[1..])
  }

  lemma {:induction false} StageValuesAppend(a: seq<Event>, b: seq<Event>)
    ensures StageValues(a + b) == StageValues(a) + StageValues(b)
  {
    if a == [] {
      assert a + b == b;
    } else {
      assert (a + b)[0] == a[0];
      assert (a + b)[1..] == a[1..] + b;
      StageValuesAppend(a[1..], b);
    }
  }

  /** Each stage value is non-empty and differs from the one before it,
      the first from `last`. */
  predicate Fresh(last: string, sv: seq<string>)
    decreases |sv|
  {
    sv == [] || (sv[0] != "" && sv[0] != last && Fresh(sv[0], sv[1..]))
  }

  lemma {:induction false} FreshAdjacent(last: string, sv: seq<string>)
    requires Fresh(last, sv)
    ensures forall i :: 0 <= i < |sv| ==> sv[i] != ""
    ensures forall i :: 0 <= i < |sv| - 1 ==> sv[i] != sv[i + 1]
    ensures |sv| > 0 ==> sv[0] != last
    decreases |sv|
  {
    if sv != [] {
      FreshAdjacent(sv[0], sv[1..]);
      assert forall i :: 1 <= i < |sv| ==> sv[i] == sv[1..][i - 1];
    }
  }

  /** The stages one turn sends: the job's own stage, when it is new to
      this client and the job neither canceled nor failed. */
  lemma PollStages(id: string, j: Job, lastStage: string)
    ensures StageValues(Poll(id, j, lastStage).events) ==
      if !j.canceled && j.err == "" && j.stage != "" && j.stage != lastStage then [j.stage] else []
  {
    var p := Poll(id, j, lastStage);
    if j.canceled || j.err != "" {
      assert StageValues(p.events) == [];
    } else {
      var isNew := j.stage != "" && j.stage != lastStage;
      var stage := if isNew then [StageChange(j.stage)] else [];
      var ready := if j.ready then [Ready(DownloadUrl(id))] else [];
      StageValuesAppend([Data(j.percent)], stage);
      StageValuesAppend([Data(j.percent)] + stage, ready);
    }
  }

  lemma {:induction false} RunStagesFresh(id: string, snaps: seq<Option<Job>>, lastStage: string)
    ensures Fresh(lastStage, StageValues(Run(id, snaps, lastStage).events))
    decreases |snaps|
  {
    if snaps != [] && snaps[0].Some? {
      var j := snaps[0].value;
      var p := Poll(id, j, lastStage);
      PollStages(id, j, lastStage);
      if !j.canceled && j.err == "" {
        var isNew := j.stage != "" && j.stage != lastStage;
        if !p.done {
          var later := StageValues(Run(id, snaps[1..], p.lastStage).events);
          RunStagesFresh(id, snaps[1..], p.lastStage);
          StageValuesAppend(p.events, Run(id, snaps[1..], p.lastStage).events);
          if isNew {
            assert ([j.stage] + later)[0] == j.stage && ([j.stage] + later)[1..] == later;
          } else {
            assert [] + later == later;
          }
        }
      }
    }
  }

  /** Some snapshot the stream read holds stage `st`. */
  ghost predicate Polled(snaps: seq<Option<Job>>, st: string)
  {
    exists i :: 0 <= i < |snaps| && snaps[i].Some? && snaps[i].value.stage == st
  }

  /** Each of the stages `sv` is held by some snapshot of `snaps`. */
  ghost predicate AllPolled(snaps: seq<Option<Job>>, sv: seq<string>)
  {
    forall k :: 0 <= k < |sv| ==> Polled(snaps, sv[k])
  }

  /** Every stage event a stream sends carries the stage of a job snapshot
      it read: the stream never makes a stage up. */
  lemma {:induction false} StagesFromSnapshots(id: string, snaps: seq<Option<Job>>, lastStage: string)
    ensures AllPolled(snaps, StageValues(Run(id, snaps, lastStage).events))
    decreases |snaps|
  {
    if snaps != [] && snaps[0].Some? {
      var j := snaps[0].value;
      var p := Poll(id, j, lastStage);
      PollStages(id, j, lastStage);
      assert Polled(snaps, j.stage) by {
        assert snaps[0].Some? && snaps[0].value.stage == j.stage;
      }
      if !p.done {
        var rest := Run(id, snaps[1..], p.lastStage);
        StagesFromSnapshots(id, snaps[1..], p.lastStage);
        StageValuesAppend(p.events, rest.events);
        var later := StageValues(rest.events);
        forall k | 0 <= k < |later|
          ensures Polled(snaps, later[k])
        {
          assert Polled(snaps[1..], later[k]);
          var i :| 0 <= i < |snaps[1..]| && snaps[1..][i].Some? && snaps[1..][i].value.stage == later[k];
          assert snaps[i + 1] == snaps[1..][i];
        }
      }
    }
  }

  /** No two stage events in a row on one stream carry the same stage,
      and none carries the empty stage. */
  lemma NoRepeatedStage(id: string, snaps: seq<Option<Job>>)
    ensures var sv := StageValues(Run(id, snaps, "").events);
      && (forall i :: 0 <= i < |sv| ==> sv[i] != "")
      && (forall i :: 0 <= i < |sv| - 1 ==> sv[i] != sv[i + 1])
  {
    RunStagesFresh(id, snaps, "");
    FreshAdjacent("", StageValues(Run(id, snaps, "").events));
  }

  /** A stream on an unknown id answers not-found and writes no event. */
  lemma UnknownJob(id: string, snaps: seq<Option<Job>>)
    requires |snaps| > 0 && snaps[0].None?
    ensures Run(id, snaps, "") == Outcome([], NotFound)
  {
  }

  /** A stream opened on a job that is already canceled, failed or ready
      writes what one turn writes and ends, without a second turn. */
  lemma TerminalJobAtOnce(id: string, snaps: seq<Option<Job>>, lastStage: string)
    requires |snaps| > 0 && snaps[0].Some?
    requires var j := snaps[0].value; j.canceled || j.err != "" || j.ready
    ensures Run(id, snaps, lastStage) == Outcome(Poll(id, snaps[0].value, lastStage).events, Terminated)
  {
  }

  /** A failed job that was not canceled ends up with both Err and Ready
      set, yet its stream reports the error, never the ready event. */
  lemma FailedJobReportsError(m: JobMap, id: string, msg: string, lastStage: string)
    requires id in m && !m[id].canceled && msg != ""
    ensures var j := Finished(m, id, "", Some(msg))[id];
      && j.ready && j.err == msg
      && Poll(id, j, lastStage).events == [Error(msg)]
  {
  }

  /** Once canceled, whatever the job's goroutines and handlers do next
      (finishing with or without an error included), every turn of its
      stream reports the cancellation. */
  lemma CancelWins(m: JobMap, id: string, steps: seq<Step>, lastStage: string)
    requires id in m
    requires Runs(Canceled(m, id), steps)
    ensures id in ApplyAll(Canceled(m, id), steps)
    ensures Poll(id, ApplyAll(Canceled(m, id), steps)[id], lastStage).events == [Error(CanceledMessage)]
  {
    RunEvolves(Canceled(m, id), steps);
  }
}
