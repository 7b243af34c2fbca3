/** How the academic service's gates read the answers of the finance and student
    services: the remote values the gates compare against are produced by those
    services' own lookups. */
module Integration {
  import opened Wrappers
  import opened AcademicErrors
  import opened AcademicRemote
  import opened Eligibility
  import PaymentModel
  import FinanceService
  import StudentModel

  /** The `checkTuitionStatus { status }` answer of a reachable finance service. */
  function TuitionAnswer(ps: seq<PaymentModel.Payment>, nim: string): Reply<string> {
    Answered(Some(FinanceService.ReportedStatus(ps, nim)))
  }

  /** The `studentByNim` answer of a reachable student service: the student, or null. */
  function StudentAnswer(found: Option<StudentModel.Student>): Reply<StudentInfo> {
    match found
    case None => Answered(None)
    case Some(s) => Answered(Some(StudentInfo(s.nim, s.fullName, s.major, s.status)))
  }

  /** The tuition gate passes exactly when the student's FIRST stored payment is
      PAID; a student without payments is denied with the reported UNPAID. */
  lemma {:induction false} TuitionGateReadsFirstPayment(ps: seq<PaymentModel.Payment>, nim: string)
    ensures TuitionGate(TuitionAnswer(ps, nim)).Pass? <==>
              && FinanceService.FirstPaymentOf(ps, nim).Some?
              && ps[FinanceService.FirstPaymentOf(ps, nim).value].status == PaymentModel.Paid
    ensures FinanceService.FirstPaymentOf(ps, nim).None? ==>
              TuitionGate(TuitionAnswer(ps, nim)) == Fail(Unpaid(PaymentModel.Unpaid))
  {
    assert PaymentModel.Unpaid != "" && PaymentModel.Unpaid != "PAID";
  }

  /** Once a student has a payment that is not PAID, creating any number of new
      payments (a PAID invoice included) leaves the tuition gate closed. */
  lemma {:induction false} InvoiceAfterUnpaidStaysDenied(
    ps: seq<PaymentModel.Payment>, nim: string, later: seq<PaymentModel.Payment>)
    requires FinanceService.FirstPaymentOf(ps, nim).Some?
    requires ps[FinanceService.FirstPaymentOf(ps, nim).value].status != PaymentModel.Paid
    ensures TuitionGate(TuitionAnswer(ps + later, nim)).Fail?
  {
    FinanceService.LaterPaymentsDoNotChangeReport(ps, nim, later);
    TuitionGateReadsFirstPayment(ps, nim);
  }

  /** The standing gate passes exactly for a stored student whose status is
      ACTIVE; an unknown student reaches the caller as "Student Service down". */
  lemma {:induction false} StandingGateReadsStudentStatus(found: Option<StudentModel.Student>)
    ensures StandingActive(StudentAnswer(found)) <==> found.Some? && found.value.status == StudentModel.Active
    ensures found.None? ==> StudentLookup(StudentAnswer(found)) == Err(StudentDown)
  {
  }
}
