/** The student service's Mongoose model: three required strings, a unique
    student number and an enumerated academic standing that defaults to ACTIVE. */
module StudentModel {

  type RecordId = nat

  datatype Student = Student(id: RecordId, nim: string, fullName: string, major: string, status: string)

  const Active: string := "ACTIVE"
  const Graduated: string := "GRADUATED"
  const Dropout: string := "DROPOUT"
  const Leave: string := "LEAVE"

  /** The `enum` of the `status` path. */
  const StudentStatuses: set<string> := {Active, Graduated, Dropout, Leave}

  /** What saving a student checks: `nim`, `fullName` and `major` are required
      (so not empty) and `status` is one of the enumerated values. The unique
      index on `nim` is a property of the collection, not of one document. */
  predicate StudentSchemaOk(s: Student) {
    s.nim != "" && s.fullName != "" && s.major != "" && s.status in StudentStatuses
  }

  /** `new Student({ nim, fullName, major })`: the status takes its default. */
  function NewStudent(id: RecordId, nim: string, fullName: string, major: string): (s: Student)
    ensures s.status == Active
    ensures StudentSchemaOk(s) <==> nim != "" && fullName != "" && major != ""
  {
    Student(id, nim, fullName, major, Active)
  }
}
