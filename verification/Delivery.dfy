/** The report-notification delivery of internal/domain/report.go: one row that
    retries move between failed and delivered. */
module Delivery {
  import opened Text
  import opened Time
  import opened Runs
  import opened StrictJson
  import opened DomainJson

  datatype Status = Pending | Delivered | Failed

  datatype Row = Row(finalReportId: int, channelProfileId: int, idempotencyKey: string, providerMessageId: string,
                     providerStatus: string, status: Status, raw: RawMessage, failureReason: string,
                     deliveredAt: Option<Time>)

  function NewReportNotificationDelivery(finalReportId: int, idempotencyKey: string): Option<Row> {
    var key := TrimSpace(idempotencyKey);
    if finalReportId == 0 || key == "" then None
    else Some(Row(finalReportId, 0, key, "", "", Pending, DefaultJSONObject(NoBytes), "", None))
  }

  /** `validate` returns no error. */
  predicate Valid(d: Row) {
    && d.finalReportId != 0
    && TrimSpace(d.idempotencyKey) != ""
    && d.channelProfileId >= 0
    && IsValidJSON(DefaultJSONObject(d.raw))
    && (d.status == Delivered <==> d.deliveredAt.Some?)
    && (d.status == Status.Failed <==> TrimSpace(d.failureReason) != "")
  }

  function MarkDelivered(d: Row, providerMessageId: string, providerStatus: string, raw: RawMessage,
                         deliveredAt: Time): Option<Row> {
    if IsZero(deliveredAt) then None
    else
      var status := TrimSpace(providerStatus);
      var after := d.(providerMessageId := TrimSpace(providerMessageId),
                      providerStatus := if status == "" then "delivered" else status,
                      status := Delivered, raw := DefaultJSONObject(raw), failureReason := "",
                      deliveredAt := Some(NormalizeUTCMicro(deliveredAt)));
      if Valid(after) then Some(after) else None
  }

  function MarkFailed(d: Row, reason: string, raw: RawMessage): Option<Row> {
    var text := TrimSpace(reason);
    if text == "" then None
    else
      var after := d.(providerMessageId := "", providerStatus := "", status := Status.Failed,
                      raw := DefaultJSONObject(raw), failureReason := text, deliveredAt := None);
      if Valid(after) then Some(after) else None
  }

  // --------------------------------------------------------------------- runs

  datatype Mark = DeliveredMark(messageId: string, providerStatus: string, raw: RawMessage, at: Time)
                | FailedMark(reason: string, raw: RawMessage)

  function Try(d: Row, mark: Mark): Option<Row> {
    match mark
    case DeliveredMark(messageId, providerStatus, raw, at) => MarkDelivered(d, messageId, providerStatus, raw, at)
    case FailedMark(reason, raw) => MarkFailed(d, reason, raw)
  }

  function Step(d: Row, mark: Mark): Row {
    match Try(d, mark)
    case Some(after) => after
    case None => d
  }

  /** What is stored of a payload: itself, or the empty object for none. */
  function Stored(raw: RawMessage): RawMessage {
    match raw
    case NoBytes => Bytes(Stream([OpenObject, CloseObject], Eof))
    case Bytes(input) => Bytes(input)
  }

  lemma StoredIs(raw: RawMessage)
    ensures DefaultJSONObject(raw) == Stored(raw)
    ensures IsValidJSON(DefaultJSONObject(raw)) <==> (raw.Bytes? ==> IsStrictDocument(raw.input))
  {
    assert Tokens(Object(NoMembers)) == [OpenObject, CloseObject];
    if raw.NoBytes? {
      DefaultObjectIsValid();
    } else {
      AcceptsIff(raw.input);
    }
  }

  /** Whether a mark succeeds on a valid row depends on the mark alone: a payload, if
      there is one, must be one JSON document without repeated keys, and a delivery
      needs a time, a failure a reason. */
  ghost predicate Accepted(mark: Mark) {
    && (mark.raw.Bytes? ==> IsStrictDocument(mark.raw.input))
    && match mark
       case DeliveredMark(_, _, _, at) => at != 0
       case FailedMark(reason, _) => TrimSpace(reason) != ""
  }

  predicate SameRow(d: Row, e: Row) {
    && d.finalReportId == e.finalReportId && d.idempotencyKey == e.idempotencyKey
    && d.channelProfileId == e.channelProfileId
  }

  lemma TrimTwice(s: string)
    ensures TrimSpace(TrimSpace(s)) == TrimSpace(s) && TrimSpace("") == ""
  {
    TrimSpaceFixed(TrimSpace(s));
    TrimSpaceFixed("");
  }

  /** On a valid row a mark succeeds exactly when it is acceptable, and what it
      writes depends only on the row's identity and the mark. */
  lemma MarkDecides(d: Row, e: Row, mark: Mark)
    requires Valid(d) && Valid(e) && SameRow(d, e)
    ensures Try(d, mark).Some? <==> Accepted(mark)
    ensures Try(d, mark) == Try(e, mark)
    ensures Try(d, mark).Some? ==>
      Valid(Try(d, mark).value) && FieldsFit(Try(d, mark).value) && SameRow(Try(d, mark).value, d)
  {
    match mark
    case DeliveredMark(messageId, providerStatus, raw, at) =>
      DeliveredDecides(d, messageId, providerStatus, raw, at);
      DeliveredDecides(e, messageId, providerStatus, raw, at);
    case FailedMark(reason, raw) =>
      FailedDecides(d, reason, raw);
      FailedDecides(e, reason, raw);
  }

  /** On any row, valid or not, a delivery mark succeeds exactly when it is
      acceptable and the row has a report, a key and no negative channel. */
  lemma DeliveredDecides(d: Row, messageId: string, providerStatus: string, raw: RawMessage, at: Time)
    ensures var status := if TrimSpace(providerStatus) == "" then "delivered" else TrimSpace(providerStatus);
      MarkDelivered(d, messageId, providerStatus, raw, at)
      == if Accepted(DeliveredMark(messageId, providerStatus, raw, at)) && HasIdentity(d)
         then Some(Row(d.finalReportId, d.channelProfileId, d.idempotencyKey, TrimSpace(messageId), status, Delivered,
                       Stored(raw), "", Some(1000 * (at / 1000))))
         else None
  {
    TrimTwice("");
    StoredIs(raw);
    StoredTwice(raw);
    NormalizeLaws(at, 0);
  }

  lemma FailedDecides(d: Row, reason: string, raw: RawMessage)
    ensures MarkFailed(d, reason, raw)
         == if Accepted(FailedMark(reason, raw)) && HasIdentity(d)
            then Some(Row(d.finalReportId, d.channelProfileId, d.idempotencyKey, "", "", Status.Failed,
                          Stored(raw), TrimSpace(reason), None))
            else None
  {
    TrimTwice(reason);
    StoredIs(raw);
    StoredTwice(raw);
  }

  predicate HasIdentity(d: Row) {
    d.finalReportId != 0 && TrimSpace(d.idempotencyKey) != "" && d.channelProfileId >= 0
  }

  lemma StoredTwice(raw: RawMessage)
    ensures DefaultJSONObject(DefaultJSONObject(raw)) == DefaultJSONObject(raw)
  {
  }

  /** The last acceptable mark of a run. */
  ghost function LastAccepted(marks: seq<Mark>): Option<Mark> {
    if marks == [] then None
    else if Accepted(marks[|marks| - 1]) then Some(marks[|marks| - 1])
    else LastAccepted(marks[..|marks| - 1])
  }

  /** The delivery fields belong to the status: provider data only with a
      delivery, a reason only with a failure, and the payload always JSON. */
  predicate FieldsFit(d: Row) {
    && IsValidJSON(d.raw)
    && (d.status != Delivered ==> d.providerMessageId == "" && d.providerStatus == "" && d.deliveredAt.None?)
    && (d.status == Delivered ==> d.providerStatus != "" && d.deliveredAt.Some?)
    && (d.status == Status.Failed <==> d.failureReason != "")
  }

  /** Every row a run reaches is valid, keeps its report and idempotency key, and
      is what the last acceptable mark alone would have made of the first row. */
  lemma {:induction false} LastMarkDecides(d: Row, marks: seq<Mark>)
    requires Valid(d) && FieldsFit(d)
    ensures var r := Run(Step, d, marks);
      && Valid(r) && SameRow(r, d) && FieldsFit(r)
      && r == match LastAccepted(marks)
              case None => d
              case Some(mark) => Step(d, mark)
  {
    if marks != [] {
      var n := |marks| - 1;
      LastMarkDecides(d, marks[..n]);
      MarkDecides(Run(Step, d, marks[..n]), d, marks[n]);
    }
  }

  lemma NewIsValid(finalReportId: int, idempotencyKey: string)
    requires NewReportNotificationDelivery(finalReportId, idempotencyKey).Some?
    ensures Valid(NewReportNotificationDelivery(finalReportId, idempotencyKey).value)
    ensures FieldsFit(NewReportNotificationDelivery(finalReportId, idempotencyKey).value)
  {
    TrimTwice(idempotencyKey);
    DefaultObjectIsValid();
  }

  lemma NewIff(finalReportId: int, idempotencyKey: string)
    ensures NewReportNotificationDelivery(finalReportId, idempotencyKey)
         == if finalReportId != 0 && TrimSpace(idempotencyKey) != ""
            then Some(Row(finalReportId, 0, TrimSpace(idempotencyKey), "", "", Pending,
                          Bytes(Stream([OpenObject, CloseObject], Eof)), "", None))
            else None
  {
    StoredIs(NoBytes);
  }

  /** What the last acceptable mark of a run leaves in the row. */
  lemma LastMarkWrites(finalReportId: int, idempotencyKey: string, marks: seq<Mark>)
    requires NewReportNotificationDelivery(finalReportId, idempotencyKey).Some?
    ensures var r := Run(Step, NewReportNotificationDelivery(finalReportId, idempotencyKey).value, marks);
      && r.finalReportId == finalReportId && r.idempotencyKey == TrimSpace(idempotencyKey)
      && match LastAccepted(marks)
         case None =>
           r == Row(finalReportId, 0, TrimSpace(idempotencyKey), "", "", Pending,
                    Bytes(Stream([OpenObject, CloseObject], Eof)), "", None)
         case Some(DeliveredMark(messageId, providerStatus, raw, at)) =>
           && r.status == Delivered && r.providerMessageId == TrimSpace(messageId) && r.raw == Stored(raw)
           && r.providerStatus == (if TrimSpace(providerStatus) == "" then "delivered" else TrimSpace(providerStatus))
           && r.deliveredAt == Some(1000 * (at / 1000)) && r.failureReason == ""
         case Some(FailedMark(reason, raw)) =>
           && r.status == Status.Failed && r.failureReason == TrimSpace(reason) && r.raw == Stored(raw)
           && r.providerMessageId == "" && r.providerStatus == "" && r.deliveredAt.None?
  {
    var d := NewReportNotificationDelivery(finalReportId, idempotencyKey).value;
    NewIsValid(finalReportId, idempotencyKey);
    LastMarkDecides(d, marks);
    LastIsAccepted(marks);
    StoredIs(NoBytes);
    match LastAccepted(marks)
    case None =>
    case Some(DeliveredMark(messageId, providerStatus, raw, at)) =>
      DeliveredDecides(d, messageId, providerStatus, raw, at);
    case Some(FailedMark(reason, raw)) =>
      FailedDecides(d, reason, raw);
  }

  lemma {:induction false} LastIsAccepted(marks: seq<Mark>)
    ensures LastAccepted(marks).Some? ==> Accepted(LastAccepted(marks).value)
  {
    if marks != [] {
      LastIsAccepted(marks[..|marks| - 1]);
    }
  }

  /** A delivered row can fail again: delivery is not final. */
  lemma DeliveredCanFail(d: Row)
    requires Valid(d) && d.status == Delivered
    ensures Step(d, FailedMark("late bounce", NoBytes)).status == Status.Failed
  {
    DefaultObjectIsValid();
    TrimSpaceFixed("late bounce");
    MarkDecides(d, d, FailedMark("late bounce", NoBytes));
  }
}
