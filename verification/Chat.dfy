/** The chat-session lifecycle of internal/domain/chat.go. */
module Chat {
  import opened Text
  import opened Time
  import opened Runs

  datatype Status = Open | Closed

  /** The approval vocabulary; `Unsupported` is any other text. */
  datatype ApprovalMode = Single | OwnerAndLeader | Unsupported(text: string)

  datatype Session = Session(taskId: int, sessionKey: string, ownerSubject: string, status: Status, turnCount: int,
                             startedAt: Time, lastActivityAt: Time, closedAt: Option<Time>, closeReason: string,
                             approvalMode: ApprovalMode)

  function NewChatSession(taskId: int, sessionKey: string, ownerSubject: string, startedAt: Time,
                          approvalModes: seq<ApprovalMode>): Option<Session> {
    var key := TrimSpace(sessionKey);
    var owner := TrimSpace(ownerSubject);
    if taskId == 0 || key == "" || owner == "" || IsZero(startedAt) || |approvalModes| > 1 then None
    else
      var mode := if |approvalModes| == 1 then approvalModes[0] else Single;
      if mode.Unsupported? then None
      else
        var normalised := NormalizeUTCMicro(startedAt);
        Some(Session(taskId, key, owner, Open, 0, normalised, normalised, None, "", mode))
  }

  function RecordTurn(s: Session, occurredAt: Time): Option<Session> {
    var normalised := NormalizeUTCMicro(occurredAt);
    if s.status == Closed || IsZero(occurredAt) || IsZero(s.startedAt) || normalised < s.startedAt || s.turnCount < 0
    then None
    else Some(s.(turnCount := s.turnCount + 1, lastActivityAt := normalised))
  }

  function Close(s: Session, closedAt: Time, reason: string): Option<Session> {
    var text := TrimSpace(reason);
    var normalised := NormalizeUTCMicro(closedAt);
    if IsZero(closedAt) || text == "" || IsZero(s.startedAt) || normalised < s.startedAt then None
    else if s.status == Closed then
      if s.closedAt == Some(normalised) && s.closeReason == text then Some(s) else None
    else Some(s.(status := Closed, closedAt := Some(normalised), closeReason := text, lastActivityAt := normalised))
  }

  // --------------------------------------------------------------------- runs

  datatype Call = TurnCall(at: Time) | CloseCall(at: Time, reason: string)

  function Try(s: Session, call: Call): Option<Session> {
    match call
    case TurnCall(at) => RecordTurn(s, at)
    case CloseCall(at, reason) => Close(s, at, reason)
  }

  function Step(s: Session, call: Call): Session {
    match Try(s, call)
    case Some(after) => after
    case None => s
  }

  predicate Consistent(s: Session) {
    && s.turnCount >= 0
    && s.startedAt % 1000 == 0 && s.lastActivityAt % 1000 == 0
    && s.startedAt <= s.lastActivityAt
    && (s.status == Closed <==> s.closedAt.Some?)
    && (s.status == Closed <==> s.closeReason != "")
    && (s.closedAt.Some? ==> s.closedAt.value == s.lastActivityAt)
  }

  predicate SameIdentity(s: Session, r: Session) {
    && s.taskId == r.taskId && s.sessionKey == r.sessionKey && s.ownerSubject == r.ownerSubject
    && s.startedAt == r.startedAt && s.approvalMode == r.approvalMode
  }

  /** How many turns of a run were accepted. */
  function AcceptedTurns(s: Session, calls: seq<Call>): nat {
    if calls == [] then 0
    else
      var n := |calls| - 1;
      AcceptedTurns(s, calls[..n])
      + (if calls[n].TurnCall? && Try(Run(Step, s, calls[..n]), calls[n]).Some? then 1 else 0)
  }

  /** The time of the last accepted call that moved the activity time. */
  function LastActivity(s: Session, calls: seq<Call>): Time {
    if calls == [] then s.lastActivityAt
    else
      var n := |calls| - 1;
      if Try(Run(Step, s, calls[..n]), calls[n]).Some? then NormalizeUTCMicro(calls[n].at)
      else LastActivity(s, calls[..n])
  }

  lemma StepConsistent(s: Session, call: Call)
    requires Consistent(s)
    ensures var r := Step(s, call);
      && Consistent(r) && SameIdentity(r, s)
      && r.turnCount == s.turnCount + (if call.TurnCall? && Try(s, call).Some? then 1 else 0)
      && r.lastActivityAt == if Try(s, call).Some? then NormalizeUTCMicro(call.at) else s.lastActivityAt
  {
  }

  /** Every session a run reaches is consistent, keeps its identity, counts
      exactly the accepted turns, and shows the time of the last accepted call. */
  lemma {:induction false} RunConsistent(s0: Session, calls: seq<Call>)
    requires Consistent(s0)
    ensures var s := Run(Step, s0, calls);
      && Consistent(s) && SameIdentity(s, s0)
      && s.turnCount == s0.turnCount + AcceptedTurns(s0, calls)
      && s.lastActivityAt == LastActivity(s0, calls)
  {
    if calls != [] {
      var n := |calls| - 1;
      RunConsistent(s0, calls[..n]);
      StepConsistent(Run(Step, s0, calls[..n]), calls[n]);
    }
  }

  lemma NewIsConsistent(taskId: int, key: string, owner: string, startedAt: Time, modes: seq<ApprovalMode>)
    requires NewChatSession(taskId, key, owner, startedAt, modes).Some?
    ensures var s := NewChatSession(taskId, key, owner, startedAt, modes).value;
      Consistent(s) && s.status == Open && s.turnCount == 0 && s.startedAt == NormalizeUTCMicro(startedAt)
  {
  }

  /** A session is created exactly from a task, a non-blank key and owner, a start
      time, and at most one supported approval mode. */
  lemma NewIff(taskId: int, key: string, owner: string, startedAt: Time, modes: seq<ApprovalMode>)
    ensures NewChatSession(taskId, key, owner, startedAt, modes)
         == if && taskId != 0 && TrimSpace(key) != "" && TrimSpace(owner) != "" && startedAt != 0
               && (modes == [] || modes == [Single] || modes == [OwnerAndLeader])
            then var start := 1000 * (startedAt / 1000);
                 var mode := if modes == [OwnerAndLeader] then OwnerAndLeader else Single;
                 Some(Session(taskId, TrimSpace(key), TrimSpace(owner), Open, 0, start, start, None, "", mode))
            else None
  {
    NormalizeLaws(startedAt, 0);
    assert |modes| == 1 ==> modes == [modes[0]];
  }

  /** A turn is accepted exactly on an open session with a start, at a time that is
      set and not before it, and changes the count and the activity time only. */
  lemma TurnIff(s: Session, at: Time)
    requires Consistent(s)
    ensures RecordTurn(s, at)
         == if s.status == Open && s.startedAt != 0 && at != 0 && s.startedAt <= at
            then Some(Session(s.taskId, s.sessionKey, s.ownerSubject, Open, s.turnCount + 1, s.startedAt,
                              1000 * (at / 1000), None, "", s.approvalMode))
            else None
  {
    NormalizeLaws(at, s.startedAt);
  }

  /** The same for closing an open session, which also needs a reason. */
  lemma CloseIff(s: Session, at: Time, reason: string)
    requires Consistent(s) && s.status == Open
    ensures Close(s, at, reason)
         == if s.startedAt != 0 && at != 0 && s.startedAt <= at && TrimSpace(reason) != ""
            then Some(Session(s.taskId, s.sessionKey, s.ownerSubject, Closed, s.turnCount, s.startedAt,
                              1000 * (at / 1000), Some(1000 * (at / 1000)), TrimSpace(reason), s.approvalMode))
            else None
  {
    NormalizeLaws(at, s.startedAt);
  }

  /** The documentation says a turn advances the activity time. It does exactly
      when the turn is not older than the last activity; an older turn is
      accepted too, and moves the time back. */
  lemma TurnAdvancesIff(s: Session, at: Time)
    requires Consistent(s) && RecordTurn(s, at).Some?
    ensures RecordTurn(s, at).value.lastActivityAt >= s.lastActivityAt <==> at >= s.lastActivityAt
  {
    NormalizeLaws(at, s.lastActivityAt);
    NormalizeLaws(s.lastActivityAt, at);
    assert NormalizeUTCMicro(s.lastActivityAt) == s.lastActivityAt;
  }

  /** An accepted turn that moves the activity time back. */
  lemma TurnMovesBack(s: Session)
    requires Consistent(s) && s.status == Open && 0 < s.startedAt
    ensures var later := RecordTurn(s, s.startedAt + 2000);
      && later.Some?
      && RecordTurn(later.value, s.startedAt).Some?
      && RecordTurn(later.value, s.startedAt).value.lastActivityAt < later.value.lastActivityAt
  {
  }

  /** Nothing changes after the close. */
  lemma {:induction false} ClosedIsFinal(s: Session, more: seq<Call>)
    requires Consistent(s) && s.status == Closed
    ensures Run(Step, s, more) == s
  {
    RunKeeps(Step, x => x == s, s, more);
  }

  /** Some run of calls closes the session. */
  ghost predicate Closable(s: Session) { exists calls :: Run(Step, s, calls).status == Closed }

  /** A session whose start lies less than a microsecond after the zero time is
      created and then stuck: it can be closed by some run exactly when its
      start is not in that microsecond. */
  lemma CanBeClosedIff(taskId: int, key: string, owner: string, startedAt: Time, modes: seq<ApprovalMode>)
    requires NewChatSession(taskId, key, owner, startedAt, modes).Some?
    ensures var s := NewChatSession(taskId, key, owner, startedAt, modes).value;
      Closable(s) <==> !SameMicrosecond(startedAt, 0)
  {
    var s := NewChatSession(taskId, key, owner, startedAt, modes).value;
    NormalizeLaws(startedAt, 0);
    if SameMicrosecond(startedAt, 0) {
      forall calls ensures Run(Step, s, calls) == s {
        RunKeeps(Step, x => x == s, s, calls);
      }
    } else {
      ClosesAtStart(s, startedAt);
    }
  }

  lemma ClosesAtStart(s: Session, at: Time)
    requires s.status == Open && s.startedAt == NormalizeUTCMicro(at) && !IsZero(at) && !IsZero(s.startedAt)
    ensures Closable(s)
  {
    var call := CloseCall(at, "done");
    assert TrimSpace("done") == "done" by { TrimSpaceFixed("done"); }
    assert Step(s, call).status == Closed;
    assert [call][..0] == [];
    assert Run(Step, s, [call]) == Step(Run(Step, s, []), call);
  }

  /** Half a microsecond after the zero time: the session is created, and no run
      of calls closes it. */
  lemma CreatedButStuck(taskId: int, key: string, owner: string)
    requires taskId != 0 && TrimSpace(key) != "" && TrimSpace(owner) != ""
    ensures NewChatSession(taskId, key, owner, 500, []).Some?
    ensures !Closable(NewChatSession(taskId, key, owner, 500, []).value)
  {
    CanBeClosedIff(taskId, key, owner, 500, []);
  }

  /** Repeating a close, after whatever calls came in between: accepted, without
      effect, exactly for the same trimmed reason and a non-zero time of the same
      microsecond; refused otherwise. */
  lemma CloseReplay(s: Session, at: Time, reason: string, more: seq<Call>, at2: Time, reason2: string)
    requires Consistent(s) && s.status == Open && Close(s, at, reason).Some?
    ensures var done := Close(s, at, reason).value;
      var same := TrimSpace(reason2) == TrimSpace(reason) && SameMicrosecond(at, at2) && !IsZero(at2);
      Close(Run(Step, done, more), at2, reason2) == if same then Some(done) else None
  {
    StepConsistent(s, CloseCall(at, reason));
    ClosedIsFinal(Close(s, at, reason).value, more);
    NormalizeLaws(at, at2);
  }
}
