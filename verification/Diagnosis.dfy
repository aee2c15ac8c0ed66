/** The diagnosis-task lifecycle of internal/domain/diagnosis.go. */
module Diagnosis {
  import opened Text
  import opened Time
  import opened Runs

  /** The status vocabulary; `Unknown` is any other text. */
  datatype Status = Pending | Running | Succeeded | Failed | Cancelled | Unknown(text: string)

  predicate IsTerminal(s: Status) { s == Succeeded || s == Failed || s == Cancelled }

  datatype Task = Task(snapshotId: int, workflowId: string, runId: string, status: Status,
                       failureReason: string, startedAt: Option<Time>, finishedAt: Option<Time>)

  function NewDiagnosisTask(snapshotId: int, workflowId: string, runId: string): Option<Task> {
    if snapshotId == 0 || workflowId == "" || runId == "" then None
    else Some(Task(snapshotId, workflowId, runId, Pending, "", None, None))
  }

  function Start(t: Task, startedAt: Time): Option<Task> {
    if IsZero(startedAt) then None
    else
      var normalised := NormalizeUTCMicro(startedAt);
      if IsTerminal(t.status) then None
      else if t.status == Running && t.startedAt.Some? then
        if t.startedAt.value == normalised then Some(t) else None
      else Some(t.(status := Running, startedAt := Some(normalised)))
  }

  function Finish(t: Task, status: Status, finishedAt: Time, failureReason: string): Option<Task> {
    if !IsTerminal(status) || IsZero(finishedAt) then None
    else
      var normalised := NormalizeUTCMicro(finishedAt);
      if t.startedAt.Some? && normalised < t.startedAt.value then None
      else if status == Failed && failureReason == "" then None
      else if status != Failed && failureReason != "" then None
      else if IsTerminal(t.status) then
        if t.status == status && t.finishedAt == Some(normalised) && t.failureReason == failureReason
        then Some(t) else None
      else Some(t.(status := status, finishedAt := Some(normalised), failureReason := failureReason))
  }

  // --------------------------------------------------------------------- runs

  datatype Call = StartCall(at: Time) | FinishCall(status: Status, at: Time, reason: string)

  function Try(t: Task, call: Call): Option<Task> {
    match call
    case StartCall(at) => Start(t, at)
    case FinishCall(status, at, reason) => Finish(t, status, at, reason)
  }

  /** The task after a call; a refused call leaves it as it was. */
  function Step(t: Task, call: Call): Task {
    match Try(t, call)
    case Some(after) => after
    case None => t
  }

  predicate Consistent(t: Task) {
    && !t.status.Unknown?
    && (t.finishedAt.Some? <==> IsTerminal(t.status))
    && (t.failureReason != "" <==> t.status == Failed)
    && (t.status == Running ==> t.startedAt.Some?)
    && (t.status == Pending ==> t.startedAt.None?)
    && (t.startedAt.Some? && t.finishedAt.Some? ==> t.startedAt.value <= t.finishedAt.value)
  }

  predicate SameIdentity(t: Task, u: Task) {
    t.snapshotId == u.snapshotId && t.workflowId == u.workflowId && t.runId == u.runId
  }

  lemma NewIff(snapshotId: int, workflowId: string, runId: string)
    ensures NewDiagnosisTask(snapshotId, workflowId, runId)
         == if snapshotId != 0 && workflowId != "" && runId != ""
            then Some(Task(snapshotId, workflowId, runId, Pending, "", None, None)) else None
  {
  }

  /** A pending task starts exactly at a time that is set; a running one accepts
      only its own start again; a finished one accepts none. */
  lemma StartIff(t: Task, at: Time)
    requires Consistent(t)
    ensures var start := 1000 * (at / 1000);
      Start(t, at)
      == if at != 0 && (t.status == Pending || (t.status == Running && t.startedAt == Some(start)))
         then Some(Task(t.snapshotId, t.workflowId, t.runId, Running, "", Some(start), None)) else None
  {
    NormalizeLaws(at, 0);
  }

  /** A task that is not finished is finished exactly with one of the three
      terminal statuses, at a time that is set and whose microsecond is not before its
      start, and with a reason if and only if it failed. */
  lemma FinishIff(t: Task, status: Status, at: Time, reason: string)
    requires Consistent(t) && (t.status == Pending || t.status == Running)
    ensures Finish(t, status, at, reason)
         == if && at != 0 && (t.startedAt.Some? ==> t.startedAt.value <= 1000 * (at / 1000))
               && ((status == Failed && reason != "") || ((status == Succeeded || status == Cancelled) && reason == ""))
            then Some(Task(t.snapshotId, t.workflowId, t.runId, status, reason, t.startedAt, Some(1000 * (at / 1000))))
            else None
  {
    NormalizeLaws(at, 0);
  }

  /** Every task a run reaches is consistent and keeps its identity. */
  lemma {:induction false} RunConsistent(snapshotId: int, workflowId: string, runId: string, calls: seq<Call>)
    requires NewDiagnosisTask(snapshotId, workflowId, runId).Some?
    ensures var t := Run(Step, NewDiagnosisTask(snapshotId, workflowId, runId).value, calls);
      && Consistent(t)
      && t.snapshotId == snapshotId != 0 && t.workflowId == workflowId != "" && t.runId == runId != ""
  {
    var t0 := NewDiagnosisTask(snapshotId, workflowId, runId).value;
    RunKeeps(Step, x => Consistent(x) && SameIdentity(x, t0), t0, calls);
  }

  /** Once set, the start time never changes, and a terminal task never changes
      at all, however the run goes on. */
  lemma RunSettles(t: Task, more: seq<Call>)
    requires Consistent(t)
    ensures t.startedAt.Some? ==> Run(Step, t, more).startedAt == t.startedAt
    ensures IsTerminal(t.status) ==> Run(Step, t, more) == t
  {
    if t.startedAt.Some? {
      RunKeeps(Step, x => Consistent(x) && x.startedAt == t.startedAt, t, more);
    }
    if IsTerminal(t.status) {
      RunKeeps(Step, x => x == t, t, more);
    }
  }

  function Rank(s: Status): nat {
    match s
    case Pending => 0
    case Running => 1
    case _ => 2
  }

  /** How many calls of a run change the task. */
  function Changes(t: Task, calls: seq<Call>): nat {
    if calls == [] then 0
    else
      var before := Run(Step, t, calls[..|calls| - 1]);
      Changes(t, calls[..|calls| - 1]) + (if Step(before, calls[|calls| - 1]) != before then 1 else 0)
  }

  /** Every change moves the task up, so at most two calls have any effect. */
  lemma {:induction false} FewChanges(t: Task, calls: seq<Call>)
    requires Consistent(t)
    ensures Consistent(Run(Step, t, calls))
    ensures Changes(t, calls) + Rank(t.status) <= Rank(Run(Step, t, calls).status) <= 2
  {
    if calls != [] {
      FewChanges(t, calls[..|calls| - 1]);
    }
  }

  /** No reachable task is stuck: before it is terminal it can be finished with
      any terminal status. */
  lemma CanFinish(t: Task, status: Status) returns (at: Time, reason: string)
    requires Consistent(t) && !IsTerminal(t.status) && IsTerminal(status)
    ensures Finish(t, status, at, reason).Some?
    ensures Finish(t, status, at, reason).value.status == status
  {
    var from := if t.startedAt.Some? then t.startedAt.value else 0;
    at := if from == -1000 then 1000 else from + 1000;
    reason := if status == Failed then "failed" else "";
  }

  // ------------------------------------------------------------------ replays

  /** Repeating a finish, after whatever calls came in between: accepted, without
      effect, exactly for the same status and reason and a non-zero time of the
      same microsecond; refused otherwise. */
  lemma FinishReplay(t: Task, status: Status, at: Time, reason: string, more: seq<Call>,
                     status2: Status, at2: Time, reason2: string)
    requires Consistent(t) && !IsTerminal(t.status) && Finish(t, status, at, reason).Some?
    ensures var done := Finish(t, status, at, reason).value;
      var same := status2 == status && reason2 == reason && SameMicrosecond(at, at2) && !IsZero(at2);
      Finish(Run(Step, done, more), status2, at2, reason2) == if same then Some(done) else None
  {
    RunSettles(Finish(t, status, at, reason).value, more);
    NormalizeLaws(at, at2);
  }

  /** The same for a start, as long as the task is still running; once some call
      has finished it, every start is refused. */
  lemma {:induction false} StartReplay(t: Task, at: Time, more: seq<Call>, at2: Time)
    requires Consistent(t) && t.status == Pending && Start(t, at).Some?
    ensures var later := Run(Step, Start(t, at).value, more);
      var same := later.status == Running && SameMicrosecond(at, at2) && !IsZero(at2);
      Start(later, at2) == if same then Some(later) else None
  {
    var running := Start(t, at).value;
    RunKeeps(Step, x => Consistent(x) && x.startedAt == running.startedAt, running, more);
    NormalizeLaws(at, at2);
  }
}
