/** The academic service's three remote lookups (finance, student, library) and
    the gate decisions taken on their answers. A lookup's HTTP exchange is an input:
    the model starts from what came back and follows each helper's try/catch. */
module AcademicRemote {
  import opened Wrappers
  import opened AcademicErrors

  /** What one GraphQL POST produced.
      - NoResponse: the client got no HTTP response (refused, DNS failure, timeout);
        `code` is the client's error code, `message` its error message.
      - ErrorResponse: a non-2xx response; `errors` are the GraphQL error messages in
        its body, `message` the client's own error message.
      - Answered: a 2xx response; `field` is the queried field, `None` when the field
        is null or absent. */
  datatype Reply<T> =
    | NoResponse(code: string, message: string)
    | ErrorResponse(errors: seq<string>, message: string)
    | Answered(field: Option<T>)

  /** `studentByNim` as the academic service reads it. */
  datatype StudentInfo = StudentInfo(nim: string, fullName: string, major: string, status: string)

  /** `checkLibraryClearance`; `approved` is `None` when the flag is null. */
  datatype Clearance = Clearance(approved: Option<bool>, reason: Option<string>)

  /** How the finance and student helpers treat a reply that reached them with
      an HTTP error: the first GraphQL error verbatim, else the client's error. */
  function HttpFailure<T>(errors: seq<string>, message: string): (r: Result<T, Failure>)
    ensures r.Err?
    ensures |errors| > 0 ==> r.error == Relayed(errors[0])
    ensures |errors| == 0 ==> r.error == Transport(message)
  {
    if |errors| > 0 then Err(Relayed(errors[0])) else Err(Transport(message))
  }

  /** `getPaymentStatus`. An empty or missing status is thrown INSIDE the `try`,
      has no `response`, and so is rewritten to the "down" message like a refused
      connection. */
  function PaymentStatus(reply: Reply<string>): (r: Result<string, Failure>)
    ensures r.Ok? <==> reply.Answered? && reply.field.Some? && reply.field.value != ""
    ensures r.Ok? ==> r.value == reply.field.value
    ensures reply.Answered? && r.Err? ==> r.error == FinanceDown
    ensures reply.NoResponse? ==> r == Err(FinanceDown)
    ensures reply.ErrorResponse? ==> r == HttpFailure(reply.errors, reply.message)
  {
    match reply
    case NoResponse(_, _) => Err(FinanceDown)
    case ErrorResponse(errors, message) => HttpFailure(errors, message)
    case Answered(None) => Err(FinanceDown)
    case Answered(Some(status)) => if status == "" then Err(FinanceDown) else Ok(status)
  }

  /** `ensureTuitionPaid`: only the exact status `PAID` passes; any other status
      fails with that status in the message. */
  function TuitionGate(reply: Reply<string>): (r: Outcome<Failure>)
    ensures r.Pass? <==> reply == Answered(Some("PAID"))
    ensures PaymentStatus(reply).Ok? && r.Fail? ==> r.error == Unpaid(reply.field.value)
    ensures PaymentStatus(reply).Err? ==> r == Fail(PaymentStatus(reply).error)
  {
    match PaymentStatus(reply)
    case Err(e) => Fail(e)
    case Ok(status) => if status == "PAID" then Pass else Fail(Unpaid(status))
  }

  /** `getStudent`. A missing student is thrown inside the `try` and rewritten to
      the "down" message, exactly as a refused connection is. */
  function StudentLookup(reply: Reply<StudentInfo>): (r: Result<StudentInfo, Failure>)
    ensures r.Ok? <==> reply.Answered? && reply.field.Some?
    ensures r.Ok? ==> r.value == reply.field.value
    ensures reply.Answered? && reply.field.None? ==> r == Err(StudentDown)
    ensures reply.NoResponse? ==> r == Err(StudentDown)
    ensures reply.ErrorResponse? ==> r == HttpFailure(reply.errors, reply.message)
  {
    match reply
    case NoResponse(_, _) => Err(StudentDown)
    case ErrorResponse(errors, message) => HttpFailure(errors, message)
    case Answered(None) => Err(StudentDown)
    case Answered(Some(student)) => Ok(student)
  }

  /** `clearance.reason || 'Tidak memenuhi syarat bebas pustaka'`: a rejection always
      explains itself, with the library's own reason when it gave a non-empty one. */
  function RejectionReason(c: Clearance): (r: string)
    ensures r != ""
    ensures c.reason.Some? && c.reason.value != "" ==> r == c.reason.value
    ensures c.reason.None? || c.reason.value == "" ==> r == DefaultClearanceReason
  {
    DefaultReasonNonEmpty();
    match c.reason
    case None => DefaultClearanceReason
    case Some(reason) => if reason == "" then DefaultClearanceReason else reason
  }

  /** `ensureLibraryClearance`, which fails closed. Its own two errors are thrown
      inside the `try`; they carry no error code and no response, so the `catch`
      rethrows them unchanged. Only ECONNREFUSED and ENOTFOUND become the "offline"
      message; any other transport failure (a timeout, say) keeps its own message. */
  function ClearanceGate(reply: Reply<Clearance>): (r: Outcome<Failure>)
    ensures r.Pass? <==> reply.Answered? && reply.field.Some? && reply.field.value.approved == Some(true)
    ensures reply == Answered(None) ==> r == Fail(ClearanceMissing)
    ensures reply.Answered? && reply.field.Some? && r.Fail? ==>
              r.error == LibraryRejected(RejectionReason(reply.field.value))
    ensures reply.NoResponse? ==>
              r == Fail(if reply.code in {"ECONNREFUSED", "ENOTFOUND"} then LibraryOffline
                        else Transport(reply.message))
    ensures reply.ErrorResponse? ==>
              r == Fail(if |reply.errors| > 0 then Relayed(reply.errors[0]) else Transport(reply.message))
  {
    match reply
    case NoResponse(code, message) =>
      if code == "ECONNREFUSED" || code == "ENOTFOUND" then Fail(LibraryOffline)
      else Fail(Transport(message))
    case ErrorResponse(errors, message) =>
      if |errors| > 0 then Fail(Relayed(errors[0])) else Fail(Transport(message))
    case Answered(None) => Fail(ClearanceMissing)
    case Answered(Some(c)) =>
      if c.approved == Some(true) then Pass else Fail(LibraryRejected(RejectionReason(c)))
  }
}
