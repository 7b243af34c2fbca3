/** The finance service's Mongoose model of a tuition payment: its fields, their
    defaults and the validators run when a document is saved. There is no unique
    index, so a student may have several payments. */
module PaymentModel {
  import opened Wrappers

  type Time = nat
  type RecordId = nat

  /** A GraphQL `Float`; the services never compute with it, so it stays an
      uninterpreted quantity (a real number here). */
  type Amount = real

  datatype Payment = Payment(
    id: RecordId, nim: string, amount: Amount, status: string, proofFile: Option<string>, createdAt: Time)

  /** The amount a payment gets when none is given. */
  const DefaultAmount: Amount := 1500000.0

  const Unpaid: string := "UNPAID"
  const Pending: string := "PENDING"
  const Paid: string := "PAID"
  const Rejected: string := "REJECTED"

  /** The `enum` of the `status` path. */
  const PaymentStatuses: set<string> := {Unpaid, Pending, Paid, Rejected}

  /** What saving a payment checks: `nim` is required (so not empty) and `status`
      is one of the enumerated values. `amount` always has a value: it is either
      given or defaulted. */
  predicate PaymentSchemaOk(p: Payment) {
    p.nim != "" && p.status in PaymentStatuses
  }

  /** `new Payment({ nim })`: every other path takes its default. */
  function NewPayment(id: RecordId, nim: string, now: Time): (p: Payment)
    ensures p.nim == nim && p.id == id && p.createdAt == now
    ensures p.amount == DefaultAmount && p.status == Unpaid && p.proofFile == None
    ensures PaymentSchemaOk(p) <==> nim != ""
  {
    Payment(id, nim, DefaultAmount, Unpaid, None, now)
  }
}
