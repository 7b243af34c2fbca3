/** The student service's resolvers over the students collection, kept in
    insertion order; `nextId` hands out document ids. */
module StudentService {
  import opened Wrappers
  import opened StudentModel
  import opened Queries

  /** The errors the resolvers throw. */
  datatype StudentError =
    | CreateFailed       // any failure of `createStudent`, reported as one message
    | StudentNotFound    // "Mahasiswa tidak ditemukan"
    | ValidationFailed   // Mongoose refused the updated document

  const CreateFailedMessage: string := "Gagal membuat data. NIM mungkin sudah ada."
  const StudentNotFoundMessage: string := "Mahasiswa tidak ditemukan"

  function StudentNim(s: Student): string { s.nim }
  function StudentId(s: Student): int { s.id }

  /** Stored students passed the schema, carry ids already handed out in order,
      and no two share a nim (the unique index). */
  predicate StudentsValid(ss: seq<Student>, nextId: RecordId) {
    && (forall i :: 0 <= i < |ss| ==> StudentSchemaOk(ss[i]) && ss[i].id < nextId)
    && Ascending(ss, StudentId) && UniqueKeys(ss, StudentNim)
  }

  class StudentStore {
    var students: seq<Student>
    var nextId: RecordId

    ghost predicate Valid()
      reads this
    {
      StudentsValid(students, nextId)
    }

    constructor ()
      ensures Valid() && students == []
    {
      students, nextId := [], 0;
    }

    /** `Student.findOne({ nim })`: the position of the student with that nim. */
    method FindByNim(nim: string) returns (found: Option<nat>)
      ensures found.None? <==> forall s :: s in students ==> s.nim != nim
      ensures found.Some? ==> found.value < |students| && students[found.value].nim == nim
    {
      var k := 0;
      while k < |students|
        invariant k <= |students|
        invariant forall j :: 0 <= j < k ==> students[j].nim != nim
      {
        if students[k].nim == nim {
          return Some(k);
        }
        k := k + 1;
      }
      return None;
    }

    /** `students`: every stored student, in insertion order. */
    method Students() returns (all: seq<Student>)
      ensures all == students
    {
      all := students;
    }

    /** `studentByNim`: the one student with that nim, or null. */
    method StudentByNim(nim: string) returns (r: Option<Student>)
      requires Valid()
      ensures r.None? <==> forall s :: s in students ==> s.nim != nim
      ensures r.Some? ==> r.value in students && r.value.nim == nim
      ensures r.Some? ==> forall s :: s in students && s.nim == nim ==> s == r.value
    {
      var found := FindByNim(nim);
      match found {
        case None =>
          r := None;
        case Some(i) =>
          r := Some(students[i]);
          forall s | s in students && s.nim == nim ensures s == students[i] {
            var j :| 0 <= j < |students| && students[j] == s;
            UniqueKeyAt(students, StudentNim, i, j);
          }
      }
    }

    /** `createStudent`: a new ACTIVE student is saved unless a required field is
        empty or the nim is taken; every failure gives the same message and
        stores nothing. */
    method CreateStudent(nim: string, fullName: string, major: string) returns (r: Result<Student, StudentError>)
      requires Valid()
      modifies this
      ensures Valid()
      ensures r.Ok? <==>
                nim != "" && fullName != "" && major != "" && forall s :: s in old(students) ==> s.nim != nim
      ensures r.Err? ==> r.error == CreateFailed && students == old(students)
      ensures r.Ok? ==> students == old(students) + [r.value]
      ensures r.Ok? ==>
                && r.value.nim == nim && r.value.fullName == fullName && r.value.major == major
                && r.value.status == Active
    {
      var created := NewStudent(nextId, nim, fullName, major);
      if !StudentSchemaOk(created) {
        return Err(CreateFailed);
      }
      var existing := FindByNim(nim);
      if existing.Some? {
        assert students[existing.value] in students;
        return Err(CreateFailed);
      }
      AscendingAppend(students, created, StudentId);
      UniqueAppend(students, created, StudentNim);
      students := students + [created];
      nextId := nextId + 1;
      r := Ok(created);
    }

    /** `updateStatus`: the student with that nim takes the new status; an unknown
        nim, or a status outside the enumeration, changes nothing. */
    method UpdateStatus(nim: string, status: string) returns (r: Result<Student, StudentError>)
      requires Valid()
      modifies this
      ensures Valid() && nextId == old(nextId)
      ensures (forall s :: s in old(students) ==> s.nim != nim) ==> r == Err(StudentNotFound)
      ensures (exists s :: s in old(students) && s.nim == nim) && status !in StudentStatuses ==>
                r == Err(ValidationFailed)
      ensures r.Ok? <==> (exists s :: s in old(students) && s.nim == nim) && status in StudentStatuses
      ensures r.Err? ==> students == old(students)
      ensures |students| == |old(students)|
      ensures r.Ok? ==> r.value.nim == nim && r.value.status == status
      ensures r.Ok? ==> forall i :: 0 <= i < |students| ==>
                students[i] == if old(students)[i].nim == nim then old(students)[i].(status := status) else old(students)[i]
    {
      var found := FindByNim(nim);
      if found.None? {
        return Err(StudentNotFound);
      }
      var i := found.value;
      assert students[i] in students;
      var updated := students[i].(status := status);
      if !StudentSchemaOk(updated) {
        return Err(ValidationFailed);
      }
      forall j | 0 <= j < |students| && students[j].nim == nim ensures j == i {
        UniqueKeyAt(students, StudentNim, i, j);
      }
      AscendingReplace(students, i, updated, StudentId);
      UniqueReplace(students, i, updated, StudentNim);
      students := students[i := updated];
      r := Ok(updated);
    }
  }
}
