/** The gate chains of the three student transactions, evaluated in the order the
    resolvers run them and stopping at the first failure. Each chain returns the
    caller's nim (and, for KRS, the validated items) or the first failure. */
module Eligibility {
  import opened Wrappers
  import opened Text
  import opened AcademicErrors
  import opened AcademicAuth
  import opened AcademicRemote
  import opened AcademicModels
  import opened Queries
  import opened KrsRules

  /** The sidang statuses, after upper-casing, that allow graduation registration. */
  const SidangPassStatuses: set<string> := {"PASSED", "APPROVED", "LULUS"}

  /** The library answered and its approval flag is the literal `true`. */
  predicate LibraryApproved(library: Reply<Clearance>) {
    library.Answered? && library.field.Some? && library.field.value.approved == Some(true)
  }

  /** The student service answered with a student whose standing is exactly `ACTIVE`. */
  predicate StandingActive(student: Reply<StudentInfo>) {
    student.Answered? && student.field.Some? && student.field.value.status == "ACTIVE"
  }

  function SidangOf(nim: string): Sidang -> bool {
    (s: Sidang) => s.nim == nim
  }

  function SidangTime(s: Sidang): int { s.registeredAt }

  /** `Sidang.findOne({ nim }).sort({ registeredAt: -1 })`. */
  function LatestSidang(sidangs: seq<Sidang>, nim: string): (r: Option<Sidang>)
    ensures r.None? <==> forall s :: s in sidangs ==> s.nim != nim
    ensures r.Some? ==> r.value in sidangs && r.value.nim == nim
  {
    Newest(sidangs, SidangOf(nim))
  }

  /** With registrations in time order, the latest is no older than any other of
      the same student. */
  lemma LatestSidangIsNewest(sidangs: seq<Sidang>, nim: string, s: Sidang)
    requires Ascending(sidangs, SidangTime)
    requires s in sidangs && s.nim == nim
    ensures LatestSidang(sidangs, nim).Some?
    ensures s.registeredAt <= LatestSidang(sidangs, nim).value.registeredAt
  {
    NewestIsLatest(sidangs, SidangOf(nim), SidangTime, s);
  }

  /** The precedence gate: a latest sidang must exist, and its upper-cased status
      must be PASSED, APPROVED or LULUS. The message quotes the status as stored. */
  function PrecedenceGate(latest: Option<Sidang>): (r: Outcome<Failure>)
    ensures latest.None? ==> r == Fail(NoSidang)
    ensures latest.Some? && r.Fail? ==> r.error == SidangNotPassed(latest.value.status)
  {
    match latest
    case None => Fail(NoSidang)
    case Some(s) => if ToUpper(s.status) in SidangPassStatuses then Pass else Fail(SidangNotPassed(s.status))
  }

  /** The precedence gate compares case-insensitively and nothing looser: `passed`
      and `Lulus` pass, `PASSED ` with a trailing blank does not. */
  lemma {:induction false} PrecedenceAcceptsAnyCasing(latest: Option<Sidang>)
    ensures PrecedenceGate(latest).Pass? <==>
              latest.Some? &&
              (|| SameLetters(latest.value.status, "PASSED")
               || SameLetters(latest.value.status, "APPROVED")
               || SameLetters(latest.value.status, "LULUS"))
  {
    if latest.Some? {
      var st := latest.value.status;
      ToUpperMatchesSameLetters(st, "PASSED");
      ToUpperMatchesSameLetters(st, "APPROVED");
      ToUpperMatchesSameLetters(st, "LULUS");
    }
  }

  /** A freshly registered sidang (status REGISTERED) as the latest one blocks
      graduation registration with that status named. */
  lemma {:induction false} RegisteredSidangBlocks(latest: Sidang)
    requires latest.status == Registered
    ensures PrecedenceGate(Some(latest)) == Fail(SidangNotPassed(Registered))
  {
    ToUpperKeepsUpperCase(Registered);
  }

  /** Replacing the latest sidang of `nim` by a record of the same student and
      registration time keeps that record the latest. */
  lemma {:induction false} ReplacedLatestStaysLatest(sidangs: seq<Sidang>, nim: string, i: nat, x: Sidang)
    requires Ascending(sidangs, SidangTime)
    requires i < |sidangs| && LatestSidang(sidangs, nim) == Some(sidangs[i])
    requires x.nim == nim && x.registeredAt == sidangs[i].registeredAt
    ensures LatestSidang(sidangs[i := x], nim) == Some(x)
  {
    var updated := sidangs[i := x];
    AscendingReplace(sidangs, i, x, SidangTime);
    assert updated[i] == x;
    LatestSidangIsNewest(updated, nim, x);
    var y := LatestSidang(updated, nim).value;
    var k :| 0 <= k < |updated| && updated[k] == y;
    assert sidangs[k].nim == nim && sidangs[k].registeredAt == y.registeredAt;
    LatestSidangIsNewest(sidangs, nim, sidangs[k]);
    AscendingTimesDistinct(updated, SidangTime, k, i);
  }

  /** An admin setting the caller's latest sidang to APPROVED opens the precedence
      gate: with registrations in time order, the updated record stays the latest. */
  lemma {:induction false} ApprovingLatestOpensPrecedence(sidangs: seq<Sidang>, nim: string, i: nat)
    requires Ascending(sidangs, SidangTime)
    requires i < |sidangs| && LatestSidang(sidangs, nim) == Some(sidangs[i])
    ensures PrecedenceGate(LatestSidang(sidangs[i := sidangs[i].(status := "APPROVED")], nim)).Pass?
  {
    var x := sidangs[i].(status := "APPROVED");
    ReplacedLatestStaysLatest(sidangs, nim, i, x);
    ApprovedPasses(x);
  }

  /** A sidang whose status is exactly APPROVED passes the precedence gate. */
  lemma ApprovedPasses(s: Sidang)
    requires s.status == "APPROVED"
    ensures PrecedenceGate(Some(s)).Pass?
  {
    ToUpperKeepsUpperCase(s.status);
  }

  /** `registerSidang`'s chain: login, then tuition, then library clearance. */
  function SidangEligibility(user: Option<Identity>, tuition: Reply<string>, library: Reply<Clearance>)
    : (r: Result<string, Failure>)
    ensures r.Ok? <==> user.Some? && tuition == Answered(Some("PAID")) && LibraryApproved(library)
    ensures r.Ok? ==> r.value == user.value.nim
    ensures user.None? ==> r == Err(NotLoggedIn)
    ensures user.Some? && TuitionGate(tuition).Fail? ==> r == Err(TuitionGate(tuition).error)
    ensures user.Some? && TuitionGate(tuition).Pass? && ClearanceGate(library).Fail? ==>
              r == Err(ClearanceGate(library).error)
  {
    if user.None? then Err(NotLoggedIn)
    else if TuitionGate(tuition).Fail? then Err(TuitionGate(tuition).error)
    else if ClearanceGate(library).Fail? then Err(ClearanceGate(library).error)
    else Ok(user.value.nim)
  }

  /** `registerWisuda`'s chain: login, standing ACTIVE, tuition, library clearance,
      then the precedence gate on the caller's latest sidang. */
  function WisudaEligibility(
    user: Option<Identity>, student: Reply<StudentInfo>, tuition: Reply<string>,
    library: Reply<Clearance>, sidangs: seq<Sidang>)
    : (r: Result<string, Failure>)
    ensures r.Ok? <==>
              && user.Some? && StandingActive(student) && tuition == Answered(Some("PAID"))
              && LibraryApproved(library)
              && PrecedenceGate(LatestSidang(sidangs, user.value.nim)).Pass?
    ensures r.Ok? ==> r.value == user.value.nim
    ensures user.None? ==> r == Err(NotLoggedIn)
    ensures user.Some? && StudentLookup(student).Err? ==> r == Err(StudentLookup(student).error)
    ensures user.Some? && StudentLookup(student).Ok? && !StandingActive(student) ==>
              r == Err(InactiveForWisuda(student.field.value.status))
    ensures user.Some? && StandingActive(student) && TuitionGate(tuition).Fail? ==>
              r == Err(TuitionGate(tuition).error)
    ensures user.Some? && StandingActive(student) && TuitionGate(tuition).Pass?
              && ClearanceGate(library).Fail? ==>
              r == Err(ClearanceGate(library).error)
    ensures user.Some? && StandingActive(student) && TuitionGate(tuition).Pass?
              && ClearanceGate(library).Pass? && PrecedenceGate(LatestSidang(sidangs, user.value.nim)).Fail? ==>
              r == Err(PrecedenceGate(LatestSidang(sidangs, user.value.nim)).error)
    ensures && user.Some? && StandingActive(student) && tuition == Answered(Some("PAID"))
            && LibraryApproved(library) && (forall s :: s in sidangs ==> s.nim != user.value.nim)
            ==> r == Err(NoSidang)
  {
    if user.None? then Err(NotLoggedIn)
    else match StudentLookup(student)
      case Err(e) => Err(e)
      case Ok(info) =>
        if info.status != "ACTIVE" then Err(InactiveForWisuda(info.status))
        else if TuitionGate(tuition).Fail? then Err(TuitionGate(tuition).error)
        else if ClearanceGate(library).Fail? then Err(ClearanceGate(library).error)
        else match PrecedenceGate(LatestSidang(sidangs, user.value.nim))
          case Fail(e) => Err(e)
          case Pass => Ok(user.value.nim)
  }

  /** `submitKrs`'s chain: login, standing ACTIVE, tuition, then the item validation.
      It yields the caller's nim, the normalised items and their total. */
  function KrsEligibility(
    user: Option<Identity>, student: Reply<StudentInfo>, tuition: Reply<string>,
    items: seq<KrsItemInput>, maxSks: int)
    : (r: Result<(string, seq<KrsItem>, int), Failure>)
    ensures r.Ok? <==>
              && user.Some? && StandingActive(student) && tuition == Answered(Some("PAID"))
              && ValidateKrs(items, maxSks).Ok?
    ensures r.Ok? ==> r.value.0 == user.value.nim && r.value.1 == NormalizeItems(items)
    ensures r.Ok? ==> ItemsAcceptable(r.value.1) && r.value.2 == SumSks(r.value.1) <= maxSks
    ensures user.None? ==> r == Err(NotLoggedIn)
    ensures user.Some? && StudentLookup(student).Err? ==> r == Err(StudentLookup(student).error)
    ensures user.Some? && StudentLookup(student).Ok? && !StandingActive(student) ==>
              r == Err(InactiveForKrs(student.field.value.status))
    ensures user.Some? && StandingActive(student) && TuitionGate(tuition).Fail? ==>
              r == Err(TuitionGate(tuition).error)
    ensures user.Some? && StandingActive(student) && TuitionGate(tuition).Pass?
              && ValidateKrs(items, maxSks).Err? ==>
              r == Err(ValidateKrs(items, maxSks).error)
  {
    if user.None? then Err(NotLoggedIn)
    else match StudentLookup(student)
      case Err(e) => Err(e)
      case Ok(info) =>
        if info.status != "ACTIVE" then Err(InactiveForKrs(info.status))
        else if TuitionGate(tuition).Fail? then Err(TuitionGate(tuition).error)
        else match ValidateKrs(items, maxSks)
          case Err(e) => Err(e)
          case Ok((normalized, total)) => Ok((user.value.nim, normalized, total))
  }

  /** Gates run in order and the first failure wins: once tuition fails, neither
      the library's answer nor the course list can change the outcome. The sidang
      chain consults no student record; the ACTIVE standing is required only
      because the wisuda and KRS chains check it before tuition. */
  lemma TuitionFailureHidesLaterGates(
    user: Option<Identity>, student: Reply<StudentInfo>, tuition: Reply<string>,
    library1: Reply<Clearance>, library2: Reply<Clearance>, sidangs1: seq<Sidang>, sidangs2: seq<Sidang>,
    items1: seq<KrsItemInput>, items2: seq<KrsItemInput>, maxSks: int)
    requires user.Some? && StandingActive(student) && TuitionGate(tuition).Fail?
    ensures SidangEligibility(user, tuition, library1) == SidangEligibility(user, tuition, library2)
              == Err(TuitionGate(tuition).error)
    ensures WisudaEligibility(user, student, tuition, library1, sidangs1)
              == WisudaEligibility(user, student, tuition, library2, sidangs2)
              == Err(TuitionGate(tuition).error)
    ensures KrsEligibility(user, student, tuition, items1, maxSks)
              == KrsEligibility(user, student, tuition, items2, maxSks)
              == Err(TuitionGate(tuition).error)
  {
  }
}
