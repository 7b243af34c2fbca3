/** Every error the academic service's resolvers throw, one constructor per distinct
    message, carrying the values that the message interpolates. */
module AcademicErrors {
  import opened Text

  datatype Failure =
    // access control
    | NotLoggedIn
    | NotAdmin
    // a remote service could not be used
    | FinanceDown
    | StudentDown
    | LibraryOffline
    | Relayed(remoteMessage: string)   // the first GraphQL error of a non-2xx reply, verbatim
    | Transport(clientMessage: string) // the HTTP client's own error, rethrown unchanged
    // a gate denied the transaction
    | Unpaid(tuitionStatus: string)
    | ClearanceMissing
    | LibraryRejected(reason: string)
    | InactiveForWisuda(standing: string)
    | InactiveForKrs(standing: string)
    | NoSidang
    | SidangNotPassed(sidangStatus: string)
    // course-load validation
    | KrsEmpty
    | EmptyCourseCode
    | DuplicateCourse(code: string)
    | InvalidSks(code: string)
    | SksOverLimit(total: int, limit: int)
    // the record store
    | AlreadyInWisuda
    | SchemaRejected(model: string)
    | NotFound(collection: Collection)

  datatype Collection = SidangRecords | WisudaRecords | KrsRecords

  /** The text placed where the clearance reply gives no reason. */
  const DefaultClearanceReason: string := "Tidak memenuhi syarat bebas pustaka"

  /** The fallback message is itself a message: it is never empty. */
  lemma DefaultReasonNonEmpty()
    ensures DefaultClearanceReason != ""
  {
    assert DefaultClearanceReason[0] == 'T';
  }

  /** The `Error.message` each failure is thrown with. */
  function Message(f: Failure): string {
    if NamesObservedText(f) then Frame(f).0 + ObservedText(f) + Frame(f).1
    else match f
    case NotLoggedIn => "Akses Ditolak: Anda belum login."
    case NotAdmin => "Akses Ditolak: Hanya admin yang boleh melakukan aksi ini."
    case FinanceDown => "Finance Service tidak merespon/down"
    case StudentDown => "Student Service tidak merespon/down"
    case LibraryOffline =>
      "Gagal terhubung ke Sistem Perpustakaan (LibraBook Down/Offline). Validasi \"Bebas Pustaka\" tidak bisa dilakukan."
    case Relayed(m) => m
    case Transport(m) => m
    case ClearanceMissing => "Validasi perpustakaan gagal: data clearance tidak ditemukan dari LibraBook."
    case NoSidang => "Gagal: Anda belum memiliki data sidang. Silakan daftar sidang terlebih dahulu."
    case KrsEmpty => "KRS kosong. Isi minimal 1 mata kuliah."
    case EmptyCourseCode => "courseCode tidak boleh kosong."
    case SksOverLimit(total, limit) =>
      "Gagal: Total SKS (" + IntToString(total) + ") melebihi batas maksimum (" + IntToString(limit) + ")."
    case AlreadyInWisuda => "Anda sudah terdaftar wisuda untuk periode ini."
    case SchemaRejected(model) => model + " validation failed"
    case NotFound(SidangRecords) => "Data sidang tidak ditemukan."
    case NotFound(WisudaRecords) => "Data wisuda tidak ditemukan."
    case NotFound(KrsRecords) => "Data KRS tidak ditemukan."
  }

  /** The failures whose message interpolates one observed string. */
  predicate NamesObservedText(f: Failure) {
    f.Unpaid? || f.LibraryRejected? || f.InactiveForWisuda? || f.InactiveForKrs?
    || f.SidangNotPassed? || f.DuplicateCourse? || f.InvalidSks?
  }

  /** The observed string such a failure interpolates. */
  function ObservedText(f: Failure): string
    requires NamesObservedText(f)
  {
    match f
    case Unpaid(s) => s
    case LibraryRejected(reason) => reason
    case InactiveForWisuda(s) => s
    case InactiveForKrs(s) => s
    case SidangNotPassed(s) => s
    case DuplicateCourse(code) => code
    case InvalidSks(code) => code
  }

  /** The fixed text on either side of the observed string in such a message
      (`DuplicateCourse` has nothing after the code). */
  function Frame(f: Failure): (string, string)
    requires NamesObservedText(f)
  {
    match f
    case Unpaid(_) => ("Gagal: Anda belum melunasi tagihan (Status: ", ").")
    case LibraryRejected(_) => ("Gagal: Perpustakaan menolak (", ").")
    case InactiveForWisuda(_) => ("Gagal: Status akademik Anda tidak aktif (Status: ", ").")
    case InactiveForKrs(_) => ("Gagal: Anda tidak bisa mengambil SKS (Status akademik: ", ").")
    case SidangNotPassed(_) =>
      ("Gagal: Status sidang Anda belum lulus/approved (Status: ", "). Hubungi admin akademik.")
    case DuplicateCourse(_) => ("Mata kuliah duplikat di KRS: ", "")
    case InvalidSks(_) => ("SKS tidak valid untuk ", ".")
  }

  /** A denial names the value that caused it: the observed tuition, standing or
      sidang status, the library's reason, or the offending course code. */
  lemma {:induction false} DenialNamesObservedValue(f: Failure)
    requires NamesObservedText(f)
    ensures Contains(Message(f), ObservedText(f))
  {
    ContainsSpliced(Frame(f).0, ObservedText(f), Frame(f).1);
  }

  /** A remote service's error message and the HTTP client's own reach the caller
      verbatim. */
  lemma RemoteMessagesVerbatim(m: string)
    ensures Message(Relayed(m)) == m
    ensures Message(Transport(m)) == m
  {
  }

  /** The credit-ceiling denial names both the computed total and the ceiling. */
  lemma {:induction false} OverLimitNamesTotalAndLimit(total: int, limit: int)
    ensures Contains(Message(SksOverLimit(total, limit)), IntToString(total))
    ensures Contains(Message(SksOverLimit(total, limit)), IntToString(limit))
  {
    var t, l := IntToString(total), IntToString(limit);
    var head, mid, tail := "Gagal: Total SKS (", ") melebihi batas maksimum (", ").";
    assert Message(SksOverLimit(total, limit)) == head + t + (mid + l + tail);
    ContainsSpliced(head, t, mid + l + tail);
    assert Message(SksOverLimit(total, limit)) == (head + t + mid) + l + tail;
    ContainsSpliced(head + t + mid, l, tail);
  }
}
