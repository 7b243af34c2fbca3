/** The academic service's three Mongoose models: their fields, their defaults,
    the validators Mongoose runs when a document is saved, and their unique
    indexes. Times come from the store's clock; ids from its counter. */
module AcademicModels {

  type Time = nat
  type RecordId = nat

  /** A final-exam registration. No unique index: a student may hold several. */
  datatype Sidang = Sidang(id: RecordId, nim: string, title: string, registeredAt: Time, status: string)

  /** A graduation registration, unique per (nim, period). */
  datatype Wisuda = Wisuda(id: RecordId, nim: string, period: string, registeredAt: Time, status: string)

  /** One course in a course-load submission (a subdocument without `_id`). */
  datatype KrsItem = KrsItem(courseCode: string, courseName: string, sks: int)

  /** A course-load submission, unique per (nim, semester); `createdAt` and
      `updatedAt` are Mongoose's timestamps. */
  datatype Krs = Krs(
    id: RecordId, nim: string, semester: string, items: seq<KrsItem>, totalSks: int,
    status: string, submittedAt: Time, createdAt: Time, updatedAt: Time)

  /** The `status` every new Sidang and Wisuda starts with. */
  const Registered: string := "REGISTERED"
  /** The `status` a new or resubmitted Krs has. */
  const Submitted: string := "SUBMITTED"

  /** Mongoose's `required` on a String path refuses a missing value and "". */
  predicate Present(s: string) { s != "" }

  /** What saving a Sidang checks: `nim` and `title` are required. */
  predicate SidangSchemaOk(s: Sidang) {
    Present(s.nim) && Present(s.title)
  }

  /** What saving a Wisuda checks: `nim` and `period` are required. */
  predicate WisudaSchemaOk(w: Wisuda) {
    Present(w.nim) && Present(w.period)
  }

  /** What saving an item checks: `courseCode` is required and `sks` lies in [1, 6]. */
  predicate KrsItemSchemaOk(it: KrsItem) {
    Present(it.courseCode) && 1 <= it.sks <= 6
  }

  /** What saving a Krs checks: `nim`, `semester` and every item. */
  predicate KrsSchemaOk(k: Krs) {
    Present(k.nim) && Present(k.semester) && forall it :: it in k.items ==> KrsItemSchemaOk(it)
  }

  /** The unique index `{ nim: 1, period: 1 }`. */
  function WisudaKey(w: Wisuda): (string, string) { (w.nim, w.period) }

  /** The unique index `{ nim: 1, semester: 1 }`. */
  function KrsKey(k: Krs): (string, string) { (k.nim, k.semester) }
}
