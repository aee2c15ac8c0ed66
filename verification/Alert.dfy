/** The resolution lifecycle of internal/domain/alert.go. */
module Alert {
  import opened Text
  import opened Time
  import opened Runs

  /** The status vocabulary; `Unknown` is any other text. */
  datatype Status = Firing | Resolved | Unknown(text: string)

  datatype Event = Event(source: string, sourceFingerprint: string, canonicalFingerprint: string,
                         labels: map<string, string>, annotations: map<string, string>,
                         status: Status, startsAt: Time, endsAt: Option<Time>)

  function NewAlertEvent(source: string, sourceFingerprint: string, canonicalFingerprint: string,
                         labels: map<string, string>, annotations: map<string, string>, startsAt: Time): Option<Event> {
    if TrimSpace(source) == "" || TrimSpace(sourceFingerprint) == "" || TrimSpace(canonicalFingerprint) == ""
       || IsZero(startsAt) then None
    else Some(Event(TrimSpace(source), TrimSpace(sourceFingerprint), TrimSpace(canonicalFingerprint),
                    labels, annotations, Firing, NormalizeUTCMicro(startsAt), None))
  }

  function Resolve(a: Event, endsAt: Time): Option<Event> {
    var normalised := NormalizeUTCMicro(endsAt);
    if IsZero(endsAt) || normalised < a.startsAt then None
    else match a.status
      case Resolved =>
        if a.endsAt == Some(normalised) then Some(a) else None
      case Firing => Some(a.(status := Resolved, endsAt := Some(normalised)))
      case Unknown(_) => None
  }

  /** An event is created exactly from three non-blank texts and a start time. */
  lemma NewIff(source: string, sourceFingerprint: string, canonicalFingerprint: string,
               labels: map<string, string>, annotations: map<string, string>, startsAt: Time)
    ensures NewAlertEvent(source, sourceFingerprint, canonicalFingerprint, labels, annotations, startsAt)
         == if && TrimSpace(source) != "" && TrimSpace(sourceFingerprint) != "" && TrimSpace(canonicalFingerprint) != ""
               && startsAt != 0
            then Some(Event(TrimSpace(source), TrimSpace(sourceFingerprint), TrimSpace(canonicalFingerprint),
                            labels, annotations, Firing, 1000 * (startsAt / 1000), None))
            else None
  {
    NormalizeLaws(startsAt, 0);
  }

  /** A firing event is resolved exactly at a time that is set and whose microsecond
      is not before its start; only the status and the end change. */
  lemma ResolveIff(a: Event, endsAt: Time)
    requires a.status == Firing
    ensures Resolve(a, endsAt)
         == if endsAt != 0 && a.startsAt <= 1000 * (endsAt / 1000)
            then Some(Event(a.source, a.sourceFingerprint, a.canonicalFingerprint, a.labels, a.annotations,
                            Resolved, a.startsAt, Some(1000 * (endsAt / 1000))))
            else None
  {
    NormalizeLaws(endsAt, a.startsAt);
  }

  function Step(a: Event, endsAt: Time): Event {
    match Resolve(a, endsAt)
    case Some(after) => after
    case None => a
  }

  /** After any attempts to resolve it, an event is still firing or carries the
      first accepted end, at or after its start; nothing else ever changes. */
  lemma {:induction false} RunResolves(a: Event, ends: seq<Time>)
    requires a.status == Firing && a.endsAt.None?
    ensures var r := Run(Step, a, ends);
      var accepted := FirstAccepted(a, ends);
      r == match accepted
           case None => a
           case Some(at) => a.(status := Resolved, endsAt := Some(NormalizeUTCMicro(at)))
    ensures FirstAccepted(a, ends).Some? ==> a.startsAt <= NormalizeUTCMicro(FirstAccepted(a, ends).value)
  {
    if ends != [] {
      RunResolves(a, ends[..|ends| - 1]);
    }
  }

  /** A new event is one such run's start, and can be resolved at its own start. */
  lemma NewCanResolve(source: string, sourceFingerprint: string, canonicalFingerprint: string,
                      labels: map<string, string>, annotations: map<string, string>, startsAt: Time)
    requires NewAlertEvent(source, sourceFingerprint, canonicalFingerprint, labels, annotations, startsAt).Some?
    ensures
      var a := NewAlertEvent(source, sourceFingerprint, canonicalFingerprint, labels, annotations, startsAt).value;
      && a.status == Firing && a.endsAt.None? && a.startsAt == NormalizeUTCMicro(startsAt)
      && Resolve(a, startsAt) == Some(a.(status := Resolved, endsAt := Some(a.startsAt)))
  {
  }

  /** The first end that is set and does not precede the start. */
  function FirstAccepted(a: Event, ends: seq<Time>): Option<Time> {
    if ends == [] then None
    else
      var n := |ends| - 1;
      match FirstAccepted(a, ends[..n])
      case Some(at) => Some(at)
      case None => if !IsZero(ends[n]) && a.startsAt <= NormalizeUTCMicro(ends[n]) then Some(ends[n]) else None
  }

  /** Resolving again, after whatever attempts came in between: accepted, without
      effect, exactly for a non-zero time of the same microsecond; refused
      otherwise. */
  lemma ResolveReplay(a: Event, at: Time, more: seq<Time>, at2: Time)
    requires a.status == Firing && Resolve(a, at).Some?
    ensures var done := Resolve(a, at).value;
      var same := SameMicrosecond(at, at2) && !IsZero(at2);
      Resolve(Run(Step, done, more), at2) == if same then Some(done) else None
  {
    var done := Resolve(a, at).value;
    RunKeeps(Step, x => x == done, done, more);
    NormalizeLaws(at, at2);
  }
}
