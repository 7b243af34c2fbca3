/** The finance service's resolvers and its `/upload` endpoint over the payments
    collection. `clock` stands in for `Date.now` and `nextId` hands out document
    ids; the uploaded file's stored name (chosen by the multipart middleware) is a
    parameter. */
module FinanceService {
  import opened Wrappers
  import opened PaymentModel
  import opened Queries

  /** The errors the resolvers throw. */
  datatype FinanceError =
    | PaymentNotFound      // "Data pembayaran tidak ditemukan"
    | ValidationFailed     // Mongoose refused the document on save

  const PaymentNotFoundMessage: string := "Data pembayaran tidak ditemukan"
  const UploadMissingMessage: string := "NIM dan File wajib diisi"
  const UploadDoneMessage: string := "Upload berhasil"

  /** The two answers of `POST /upload` the model reaches: a 400 with an error, or
      a 200 with a message and the saved payment. */
  datatype UploadReply =
    | BadRequest(error: string)
    | Uploaded(message: string, data: Payment)

  function PaymentId(p: Payment): int { p.id }
  function PaymentTime(p: Payment): int { p.createdAt }
  function AnyPayment(p: Payment): bool { true }

  /** Stored payments passed the schema, carry ids and times already handed out,
      and lie in id and creation order. */
  predicate PaymentsValid(ps: seq<Payment>, clock: Time, nextId: RecordId) {
    && (forall i :: 0 <= i < |ps| ==> PaymentSchemaOk(ps[i]) && ps[i].id < nextId && ps[i].createdAt <= clock)
    && Ascending(ps, PaymentId) && Ascending(ps, PaymentTime)
  }

  /** `Payment.findOne({ nim })` without a sort: the first stored payment of `nim`. */
  function FirstPaymentOf(ps: seq<Payment>, nim: string): (r: Option<nat>)
    ensures r.None? <==> forall i :: 0 <= i < |ps| ==> ps[i].nim != nim
    ensures r.Some? ==> r.value < |ps| && ps[r.value].nim == nim
    ensures r.Some? ==> forall i :: 0 <= i < r.value ==> ps[i].nim != nim
  {
    if ps == [] then None
    else if ps[0].nim == nim then Some(0)
    else match FirstPaymentOf(ps[1..], nim)
      case None => None
      case Some(i) => Some(i + 1)
  }

  /** The status `checkTuitionStatus` reports for `nim`: that of its first stored
      payment, or UNPAID when it has none. */
  function ReportedStatus(ps: seq<Payment>, nim: string): string {
    match FirstPaymentOf(ps, nim)
    case None => Unpaid
    case Some(i) => ps[i].status
  }

  /** Later payments of a student never change what `checkTuitionStatus` reports
      once the student has one: a PAID invoice created after an UNPAID or PENDING
      record stays invisible to the tuition gate. */
  lemma {:induction false} LaterPaymentsDoNotChangeReport(ps: seq<Payment>, nim: string, later: seq<Payment>)
    requires exists i :: 0 <= i < |ps| && ps[i].nim == nim
    ensures FirstPaymentOf(ps + later, nim) == FirstPaymentOf(ps, nim)
    ensures ReportedStatus(ps + later, nim) == ReportedStatus(ps, nim)
  {
    var k :| 0 <= k < |ps| && ps[k].nim == nim;
    if ps[0].nim != nim {
      assert (ps + later)[1..] == ps[1..] + later;
      assert ps[1..][k - 1] == ps[k];
      LaterPaymentsDoNotChangeReport(ps[1..], nim, later);
    }
    assert (ps + later)[FirstPaymentOf(ps, nim).value] == ps[FirstPaymentOf(ps, nim).value];
  }

  /** For a student without payments, a created payment becomes the one reported. */
  lemma {:induction false} FirstPaymentOfNewStudent(ps: seq<Payment>, nim: string, x: Payment)
    requires forall i :: 0 <= i < |ps| ==> ps[i].nim != nim
    requires x.nim == nim
    ensures FirstPaymentOf(ps + [x], nim) == Some(|ps|)
    ensures ReportedStatus(ps + [x], nim) == x.status
  {
    if ps != [] {
      assert (ps + [x])[1..] == ps[1..] + [x];
      FirstPaymentOfNewStudent(ps[1..], nim, x);
    }
  }

  class FinanceStore {
    var payments: seq<Payment>
    var clock: Time
    var nextId: RecordId

    ghost predicate Valid()
      reads this
    {
      PaymentsValid(payments, clock, nextId)
    }

    constructor ()
      ensures Valid() && payments == []
    {
      payments, clock, nextId := [], 0, 0;
    }

    /** `Payment.findOne({ nim })`: the position of the first payment of `nim`. */
    method FindByNim(nim: string) returns (found: Option<nat>)
      ensures found == FirstPaymentOf(payments, nim)
    {
      var k := 0;
      while k < |payments|
        invariant k <= |payments|
        invariant forall j :: 0 <= j < k ==> payments[j].nim != nim
      {
        if payments[k].nim == nim {
          found := Some(k);
          FirstIsUnique(payments, nim, k);
          return;
        }
        k := k + 1;
      }
      return None;
    }

    /** `checkTuitionStatus`: the first stored payment of `nim`; without one, an
        UNPAID payment with the default amount that is NOT saved. */
    method CheckTuitionStatus(nim: string) returns (p: Payment)
      requires Valid()
      ensures p.status == ReportedStatus(payments, nim) && p.nim == nim
      ensures FirstPaymentOf(payments, nim).Some? ==> p == payments[FirstPaymentOf(payments, nim).value]
      ensures FirstPaymentOf(payments, nim).None? ==>
                p.status == Unpaid && p.amount == DefaultAmount && p.proofFile == None && p !in payments
    {
      var found := FindByNim(nim);
      match found {
        case Some(i) =>
          p := payments[i];
        case None =>
          p := NewPayment(nextId, nim, clock + 1);
      }
    }

    /** `allPayments`: every payment, newest `createdAt` first. */
    method AllPayments() returns (ps: seq<Payment>)
      requires Valid()
      ensures |ps| == |payments|
      ensures forall p :: p in ps <==> p in payments
      ensures Descending(ps, PaymentTime)
    {
      ps := NewestFirst(payments, AnyPayment);
      NewestFirstDescends(payments, AnyPayment, PaymentTime);
      NewestFirstKeepsAll(payments, AnyPayment);
    }

    /** `verifyPayment`: the first payment of `nim` takes the given status and is
        saved; an unknown nim or a status outside the enumeration changes nothing. */
    method VerifyPayment(nim: string, status: string) returns (r: Result<Payment, FinanceError>)
      requires Valid()
      modifies this
      ensures Valid() && clock == old(clock) && nextId == old(nextId)
      ensures FirstPaymentOf(old(payments), nim).None? ==> r == Err(PaymentNotFound)
      ensures FirstPaymentOf(old(payments), nim).Some? && status !in PaymentStatuses ==> r == Err(ValidationFailed)
      ensures r.Err? ==> payments == old(payments)
      ensures r.Ok? <==> FirstPaymentOf(old(payments), nim).Some? && status in PaymentStatuses
      ensures r.Ok? ==>
                var i := FirstPaymentOf(old(payments), nim).value;
                r.value == old(payments)[i].(status := status) && payments == old(payments)[i := r.value]
    {
      var found := FindByNim(nim);
      if found.None? {
        return Err(PaymentNotFound);
      }
      var i := found.value;
      var updated := payments[i].(status := status);
      if !PaymentSchemaOk(updated) {
        return Err(ValidationFailed);
      }
      AscendingReplace(payments, i, updated, PaymentId);
      AscendingReplace(payments, i, updated, PaymentTime);
      payments := payments[i := updated];
      r := Ok(updated);
    }

    /** `createInvoice`: always a new PAID payment of the given amount, appended;
        existing payments are never touched. */
    method CreateInvoice(nim: string, amount: Amount) returns (r: Result<Payment, FinanceError>)
      requires Valid()
      modifies this
      ensures Valid()
      ensures r.Ok? <==> nim != ""
      ensures r.Err? ==> r.error == ValidationFailed && payments == old(payments)
      ensures r.Ok? ==> payments == old(payments) + [r.value]
      ensures r.Ok? ==>
                && r.value.nim == nim && r.value.amount == amount && r.value.status == Paid
                && r.value.proofFile == None && r.value.createdAt > old(clock)
                && forall p :: p in old(payments) ==> p.id != r.value.id
    {
      var created := Payment(nextId, nim, amount, Paid, None, clock + 1);
      if !PaymentSchemaOk(created) {
        return Err(ValidationFailed);
      }
      AscendingAppend(payments, created, PaymentId);
      AscendingAppend(payments, created, PaymentTime);
      payments := payments + [created];
      clock, nextId := clock + 1, nextId + 1;
      r := Ok(created);
    }

    /** `POST /upload`: a missing nim or file is a 400 and changes nothing;
        otherwise the first payment of `nim` (or a new one with the default amount)
        gets status PENDING and the file's name, and is saved. */
    method Upload(nim: string, file: Option<string>) returns (reply: UploadReply)
      requires Valid()
      modifies this
      ensures Valid()
      ensures reply.BadRequest? <==> nim == "" || file.None?
      ensures reply.BadRequest? ==> reply.error == UploadMissingMessage && payments == old(payments)
      ensures reply.Uploaded? ==>
                && reply.message == UploadDoneMessage
                && reply.data.nim == nim && reply.data.status == Pending && reply.data.proofFile == file
      ensures reply.Uploaded? && FirstPaymentOf(old(payments), nim).Some? ==>
                var i := FirstPaymentOf(old(payments), nim).value;
                && reply.data == old(payments)[i].(status := Pending, proofFile := file)
                && payments == old(payments)[i := reply.data]
      ensures reply.Uploaded? && FirstPaymentOf(old(payments), nim).None? ==>
                && reply.data.amount == DefaultAmount && reply.data.createdAt > old(clock)
                && payments == old(payments) + [reply.data]
    {
      if nim == "" || file.None? {
        return BadRequest(UploadMissingMessage);
      }
      var found := FindByNim(nim);
      match found {
        case Some(i) =>
          var updated := payments[i].(status := Pending, proofFile := file);
          AscendingReplace(payments, i, updated, PaymentId);
          AscendingReplace(payments, i, updated, PaymentTime);
          payments := payments[i := updated];
          reply := Uploaded(UploadDoneMessage, updated);
        case None =>
          var created := NewPayment(nextId, nim, clock + 1).(status := Pending, proofFile := file);
          AscendingAppend(payments, created, PaymentId);
          AscendingAppend(payments, created, PaymentTime);
          payments := payments + [created];
          clock, nextId := clock + 1, nextId + 1;
          reply := Uploaded(UploadDoneMessage, created);
      }
    }
  }

  /** The first index the scan meets is the one `FirstPaymentOf` names. */
  lemma {:induction false} FirstIsUnique(ps: seq<Payment>, nim: string, k: nat)
    requires k < |ps| && ps[k].nim == nim
    requires forall j :: 0 <= j < k ==> ps[j].nim != nim
    ensures FirstPaymentOf(ps, nim) == Some(k)
  {
    if k > 0 {
      FirstIsUnique(ps[1..], nim, k - 1);
    }
  }
}
