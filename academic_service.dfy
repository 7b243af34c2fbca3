/** The academic service's resolvers over its own three collections. The remote
    answers each resolver would fetch are parameters; `clock` stands in for
    `Date.now` (it advances on every save) and `nextId` hands out document ids. */
module AcademicService {
  import opened Wrappers
  import opened AcademicErrors
  import opened AcademicAuth
  import opened AcademicRemote
  import opened AcademicModels
  import opened Queries
  import opened KrsRules
  import opened Eligibility

  function SidangId(s: Sidang): int { s.id }
  function WisudaId(w: Wisuda): int { w.id }
  function WisudaTime(w: Wisuda): int { w.registeredAt }
  function KrsId(k: Krs): int { k.id }
  function KrsCreated(k: Krs): int { k.createdAt }

  function WisudaOf(nim: string): Wisuda -> bool { (w: Wisuda) => w.nim == nim }
  function KrsOf(nim: string): Krs -> bool { (k: Krs) => k.nim == nim }

  /** Stored sidangs passed the schema, carry ids and times already handed out, and
      lie in id and time order. */
  predicate SidangsValid(s: seq<Sidang>, clock: Time, nextId: RecordId) {
    && (forall i :: 0 <= i < |s| ==> SidangSchemaOk(s[i]) && s[i].id < nextId && s[i].registeredAt <= clock)
    && Ascending(s, SidangId) && Ascending(s, SidangTime)
  }

  /** As for sidangs, and the (nim, period) index is unique. */
  predicate WisudasValid(w: seq<Wisuda>, clock: Time, nextId: RecordId) {
    && (forall i :: 0 <= i < |w| ==> WisudaSchemaOk(w[i]) && w[i].id < nextId && w[i].registeredAt <= clock)
    && Ascending(w, WisudaId) && Ascending(w, WisudaTime) && UniqueKeys(w, WisudaKey)
  }

  /** What every stored course load satisfies: it passed the schema and the
      resolver's checks, its total is the sum of its items and within the
      ceiling, and its timestamps are ordered. */
  predicate KrsStored(k: Krs, maxSks: int) {
    && KrsSchemaOk(k) && k.items != [] && ItemsAcceptable(k.items)
    && k.totalSks == SumSks(k.items) && k.totalSks <= maxSks
    && k.createdAt <= k.submittedAt && k.createdAt <= k.updatedAt
  }

  /** Stored course loads are consistent, in id and creation order, and the
      (nim, semester) index is unique. */
  predicate KrsRecordsValid(ks: seq<Krs>, clock: Time, nextId: RecordId, maxSks: int) {
    && (forall i :: 0 <= i < |ks| ==>
          KrsStored(ks[i], maxSks) && ks[i].id < nextId && ks[i].submittedAt <= clock && ks[i].updatedAt <= clock)
    && Ascending(ks, KrsId) && Ascending(ks, KrsCreated) && UniqueKeys(ks, KrsKey)
  }

  class AcademicStore {
    var sidangs: seq<Sidang>
    var wisudas: seq<Wisuda>
    var krsRecords: seq<Krs>
    var clock: Time
    var nextId: RecordId
    /** The credit ceiling (`MAX_SKS`, 24 when unset). */
    const maxSks: int

    ghost predicate Valid()
      reads this
    {
      && SidangsValid(sidangs, clock, nextId)
      && WisudasValid(wisudas, clock, nextId)
      && KrsRecordsValid(krsRecords, clock, nextId, maxSks)
    }

    constructor (maxSks: int)
      ensures Valid()
      ensures sidangs == [] && wisudas == [] && krsRecords == [] && this.maxSks == maxSks
    {
      sidangs, wisudas, krsRecords := [], [], [];
      clock, nextId := 0, 0;
      this.maxSks := maxSks;
    }

    // ---------------------------------------------------------------- lookups

    /** `Sidang.findById(id)`: the position of the first record with that id. */
    method FindSidang(id: RecordId) returns (found: Option<nat>)
      ensures found.None? <==> forall s :: s in sidangs ==> s.id != id
      ensures found.Some? ==> found.value < |sidangs| && sidangs[found.value].id == id
    {
      var k := 0;
      while k < |sidangs|
        invariant k <= |sidangs|
        invariant forall j :: 0 <= j < k ==> sidangs[j].id != id
      {
        if sidangs[k].id == id {
          return Some(k);
        }
        k := k + 1;
      }
      return None;
    }

    /** `Wisuda.findById(id)`. */
    method FindWisuda(id: RecordId) returns (found: Option<nat>)
      ensures found.None? <==> forall w :: w in wisudas ==> w.id != id
      ensures found.Some? ==> found.value < |wisudas| && wisudas[found.value].id == id
    {
      var k := 0;
      while k < |wisudas|
        invariant k <= |wisudas|
        invariant forall j :: 0 <= j < k ==> wisudas[j].id != id
      {
        if wisudas[k].id == id {
          return Some(k);
        }
        k := k + 1;
      }
      return None;
    }

    /** `Wisuda.findOne({ nim, period })`. */
    method FindWisudaByKey(nim: string, period: string) returns (found: Option<nat>)
      ensures found.None? <==> forall w :: w in wisudas ==> WisudaKey(w) != (nim, period)
      ensures found.Some? ==> found.value < |wisudas| && WisudaKey(wisudas[found.value]) == (nim, period)
    {
      var k := 0;
      while k < |wisudas|
        invariant k <= |wisudas|
        invariant forall j :: 0 <= j < k ==> WisudaKey(wisudas[j]) != (nim, period)
      {
        if WisudaKey(wisudas[k]) == (nim, period) {
          return Some(k);
        }
        k := k + 1;
      }
      return None;
    }

    /** `Krs.findById(id)`. */
    method FindKrs(id: RecordId) returns (found: Option<nat>)
      ensures found.None? <==> forall k :: k in krsRecords ==> k.id != id
      ensures found.Some? ==> found.value < |krsRecords| && krsRecords[found.value].id == id
    {
      var k := 0;
      while k < |krsRecords|
        invariant k <= |krsRecords|
        invariant forall j :: 0 <= j < k ==> krsRecords[j].id != id
      {
        if krsRecords[k].id == id {
          return Some(k);
        }
        k := k + 1;
      }
      return None;
    }

    /** `Krs.findOne({ nim, semester })`. */
    method FindKrsByKey(nim: string, semester: string) returns (found: Option<nat>)
      ensures found.None? <==> forall k :: k in krsRecords ==> KrsKey(k) != (nim, semester)
      ensures found.Some? ==> found.value < |krsRecords| && KrsKey(krsRecords[found.value]) == (nim, semester)
    {
      var k := 0;
      while k < |krsRecords|
        invariant k <= |krsRecords|
        invariant forall j :: 0 <= j < k ==> KrsKey(krsRecords[j]) != (nim, semester)
      {
        if KrsKey(krsRecords[k]) == (nim, semester) {
          return Some(k);
        }
        k := k + 1;
      }
      return None;
    }

    // ---------------------------------------------------------------- queries

    /** `mySidang`: the caller's registrations, newest first. */
    method MySidang(user: Option<Identity>) returns (r: Result<seq<Sidang>, Failure>)
      requires Valid()
      ensures user.None? <==> r == Err(NotLoggedIn)
      ensures r.Ok? ==> forall s :: s in r.value <==> s in sidangs && s.nim == user.value.nim
      ensures r.Ok? ==> Descending(r.value, SidangTime)
    {
      if user.None? {
        return Err(NotLoggedIn);
      }
      NewestFirstDescends(sidangs, SidangOf(user.value.nim), SidangTime);
      r := Ok(NewestFirst(sidangs, SidangOf(user.value.nim)));
    }

    /** `myWisuda`: the caller's graduation registrations, newest first. */
    method MyWisuda(user: Option<Identity>) returns (r: Result<seq<Wisuda>, Failure>)
      requires Valid()
      ensures user.None? <==> r == Err(NotLoggedIn)
      ensures r.Ok? ==> forall w :: w in r.value <==> w in wisudas && w.nim == user.value.nim
      ensures r.Ok? ==> Descending(r.value, WisudaTime)
    {
      if user.None? {
        return Err(NotLoggedIn);
      }
      NewestFirstDescends(wisudas, WisudaOf(user.value.nim), WisudaTime);
      r := Ok(NewestFirst(wisudas, WisudaOf(user.value.nim)));
    }

    /** `myKrs(semester)`: the caller's course load for that semester, or null. */
    method MyKrs(user: Option<Identity>, semester: string) returns (r: Result<Option<Krs>, Failure>)
      requires Valid()
      ensures user.None? <==> r == Err(NotLoggedIn)
      ensures r.Ok? ==> (r.value.None? <==> forall k :: k in krsRecords ==> KrsKey(k) != (user.value.nim, semester))
      ensures r.Ok? && r.value.Some? ==> r.value.value in krsRecords && KrsKey(r.value.value) == (user.value.nim, semester)
    {
      if user.None? {
        return Err(NotLoggedIn);
      }
      var found := FindKrsByKey(user.value.nim, semester);
      match found {
        case None => r := Ok(None);
        case Some(i) => r := Ok(Some(krsRecords[i]));
      }
    }

    /** `myKrsHistory`: the caller's course loads of every semester, newest first,
        one per semester. */
    method MyKrsHistory(user: Option<Identity>) returns (r: Result<seq<Krs>, Failure>)
      requires Valid()
      ensures user.None? <==> r == Err(NotLoggedIn)
      ensures r.Ok? ==> forall k :: k in r.value <==> k in krsRecords && k.nim == user.value.nim
      ensures r.Ok? ==> Descending(r.value, KrsCreated)
      ensures r.Ok? ==> forall i, j :: 0 <= i < j < |r.value| ==> r.value[i].semester != r.value[j].semester
    {
      if user.None? {
        return Err(NotLoggedIn);
      }
      var nim := user.value.nim;
      var mine := NewestFirst(krsRecords, KrsOf(nim));
      NewestFirstDescends(krsRecords, KrsOf(nim), KrsCreated);
      forall i, j | 0 <= i < j < |mine| ensures mine[i].semester != mine[j].semester {
        OneRecordPerKey(krsRecords, mine[i], mine[j]);
      }
      r := Ok(mine);
    }

    // ---------------------------------------------------------------- sidang

    /** `registerSidang`: login, tuition, clearance; then one new record with the
        caller's nim, the title and status REGISTERED. Any failure stores nothing. */
    method RegisterSidang(user: Option<Identity>, title: string, tuition: Reply<string>, library: Reply<Clearance>)
      returns (r: Result<Sidang, Failure>)
      requires Valid()
      modifies this
      ensures Valid()
      ensures wisudas == old(wisudas) && krsRecords == old(krsRecords)
      ensures SidangEligibility(user, tuition, library).Err? ==> r == Err(SidangEligibility(user, tuition, library).error)
      ensures r.Ok? <==> SidangEligibility(user, tuition, library).Ok? && Present(user.value.nim) && Present(title)
      ensures SidangEligibility(user, tuition, library).Ok? && r.Err? ==> r.error == SchemaRejected("Sidang")
      ensures r.Err? ==> sidangs == old(sidangs)
      ensures r.Ok? ==> sidangs == old(sidangs) + [r.value]
      ensures r.Ok? ==> r.value.nim == user.value.nim && r.value.title == title && r.value.status == Registered
      ensures r.Ok? ==> forall s :: s in old(sidangs) ==> s.registeredAt < r.value.registeredAt && s.id != r.value.id
    {
      var gate := SidangEligibility(user, tuition, library);
      if gate.Err? {
        return Err(gate.error);
      }
      var created := Sidang(nextId, gate.value, title, clock + 1, Registered);
      if !SidangSchemaOk(created) {
        return Err(SchemaRejected("Sidang"));
      }
      SidangsAppend(sidangs, clock, nextId, created);
      WisudasGrow(wisudas, clock, nextId, clock + 1, nextId + 1);
      KrsRecordsGrow(krsRecords, clock, nextId, maxSks, clock + 1, nextId + 1);
      sidangs := sidangs + [created];
      clock, nextId := clock + 1, nextId + 1;
      r := Ok(created);
    }

    /** `updateSidangStatus`: admin only; the record with that id gets the new
        status and nothing else changes. No remote gate runs. */
    method UpdateSidangStatus(user: Option<Identity>, id: RecordId, status: string) returns (r: Result<Sidang, Failure>)
      requires Valid()
      modifies this
      ensures Valid()
      ensures wisudas == old(wisudas) && krsRecords == old(krsRecords)
      ensures RequireAdmin(user).Fail? ==> r == Err(RequireAdmin(user).error)
      ensures r.Ok? <==> RequireAdmin(user).Pass? && exists s :: s in old(sidangs) && s.id == id
      ensures RequireAdmin(user).Pass? && r.Err? ==> r.error == NotFound(SidangRecords)
      ensures r.Err? ==> sidangs == old(sidangs)
      ensures r.Ok? ==> r.value.id == id && r.value.status == status && r.value in sidangs
      ensures |sidangs| == |old(sidangs)|
      ensures r.Ok? ==> forall i :: 0 <= i < |sidangs| ==>
                sidangs[i] == if old(sidangs)[i].id == id then old(sidangs)[i].(status := status) else old(sidangs)[i]
    {
      var admin := RequireAdmin(user);
      if admin.Fail? {
        return Err(admin.error);
      }
      var found := FindSidang(id);
      match found {
        case None =>
          return Err(NotFound(SidangRecords));
        case Some(i) =>
          var updated := sidangs[i].(status := status);
          SidangsSetStatus(sidangs, clock, nextId, i, status);
          sidangs := sidangs[i := updated];
          assert sidangs[i] == updated;
          r := Ok(updated);
      }
    }

    // ---------------------------------------------------------------- wisuda

    /** `registerWisuda`: login, standing, tuition, clearance, precedence; then a new
        record for (nim, period) unless one exists. Any failure stores nothing. */
    method RegisterWisuda(
      user: Option<Identity>, period: string, student: Reply<StudentInfo>,
      tuition: Reply<string>, library: Reply<Clearance>)
      returns (r: Result<Wisuda, Failure>)
      requires Valid()
      modifies this
      ensures Valid()
      ensures sidangs == old(sidangs) && krsRecords == old(krsRecords)
      ensures WisudaEligibility(user, student, tuition, library, sidangs).Err? ==>
                r == Err(WisudaEligibility(user, student, tuition, library, sidangs).error)
      ensures WisudaEligibility(user, student, tuition, library, sidangs).Ok? && !(Present(user.value.nim) && Present(period)) ==>
                r == Err(SchemaRejected("Wisuda"))
      ensures r.Ok? <==>
                && WisudaEligibility(user, student, tuition, library, sidangs).Ok?
                && Present(user.value.nim) && Present(period)
                && forall w :: w in old(wisudas) ==> WisudaKey(w) != (user.value.nim, period)
      ensures && WisudaEligibility(user, student, tuition, library, sidangs).Ok?
              && Present(user.value.nim) && Present(period)
              && (exists w :: w in old(wisudas) && WisudaKey(w) == (user.value.nim, period))
              ==> r == Err(AlreadyInWisuda)
      ensures r.Err? ==> wisudas == old(wisudas)
      ensures r.Ok? ==> wisudas == old(wisudas) + [r.value]
      ensures r.Ok? ==> r.value.nim == user.value.nim && r.value.period == period && r.value.status == Registered
      ensures r.Ok? ==> forall w :: w in old(wisudas) ==> w.registeredAt < r.value.registeredAt && w.id != r.value.id
    {
      var gate := WisudaEligibility(user, student, tuition, library, sidangs);
      if gate.Err? {
        return Err(gate.error);
      }
      r := InsertWisuda(gate.value, period);
    }

    /** The save step of `registerWisuda`: the schema's required fields, then the
        unique (nim, period) index, whose violation (error 11000) the resolver
        turns into "already registered". */
    method InsertWisuda(nim: string, period: string) returns (r: Result<Wisuda, Failure>)
      requires Valid()
      modifies this
      ensures Valid()
      ensures sidangs == old(sidangs) && krsRecords == old(krsRecords)
      ensures !(Present(nim) && Present(period)) ==> r == Err(SchemaRejected("Wisuda"))
      ensures r.Ok? <==> Present(nim) && Present(period) && forall w :: w in old(wisudas) ==> WisudaKey(w) != (nim, period)
      ensures Present(nim) && Present(period) && (exists w :: w in old(wisudas) && WisudaKey(w) == (nim, period)) ==>
                r == Err(AlreadyInWisuda)
      ensures r.Err? ==> wisudas == old(wisudas)
      ensures r.Ok? ==> wisudas == old(wisudas) + [r.value]
      ensures r.Ok? ==> r.value.nim == nim && r.value.period == period && r.value.status == Registered
      ensures r.Ok? ==> forall w :: w in old(wisudas) ==> w.registeredAt < r.value.registeredAt && w.id != r.value.id
    {
      var created := Wisuda(nextId, nim, period, clock + 1, Registered);
      if !WisudaSchemaOk(created) {
        return Err(SchemaRejected("Wisuda"));
      }
      var existing := FindWisudaByKey(nim, period);
      match existing {
        case Some(i) =>
          assert wisudas[i] in wisudas;
          return Err(AlreadyInWisuda);
        case None =>
      }
      WisudasAppend(wisudas, clock, nextId, created);
      SidangsGrow(sidangs, clock, nextId, clock + 1, nextId + 1);
      KrsRecordsGrow(krsRecords, clock, nextId, maxSks, clock + 1, nextId + 1);
      wisudas := wisudas + [created];
      clock, nextId := clock + 1, nextId + 1;
      r := Ok(created);
    }

    /** `updateWisudaStatus`: admin only; the record with that id gets the new
        status and nothing else changes. No remote gate runs. */
    method UpdateWisudaStatus(user: Option<Identity>, id: RecordId, status: string) returns (r: Result<Wisuda, Failure>)
      requires Valid()
      modifies this
      ensures Valid()
      ensures sidangs == old(sidangs) && krsRecords == old(krsRecords)
      ensures RequireAdmin(user).Fail? ==> r == Err(RequireAdmin(user).error)
      ensures r.Ok? <==> RequireAdmin(user).Pass? && exists w :: w in old(wisudas) && w.id == id
      ensures RequireAdmin(user).Pass? && r.Err? ==> r.error == NotFound(WisudaRecords)
      ensures r.Err? ==> wisudas == old(wisudas)
      ensures r.Ok? ==> r.value.id == id && r.value.status == status && r.value in wisudas
      ensures |wisudas| == |old(wisudas)|
      ensures r.Ok? ==> forall i :: 0 <= i < |wisudas| ==>
                wisudas[i] == if old(wisudas)[i].id == id then old(wisudas)[i].(status := status) else old(wisudas)[i]
    {
      var admin := RequireAdmin(user);
      if admin.Fail? {
        return Err(admin.error);
      }
      var found := FindWisuda(id);
      match found {
        case None =>
          return Err(NotFound(WisudaRecords));
        case Some(i) =>
          var updated := wisudas[i].(status := status);
          WisudasSetStatus(wisudas, clock, nextId, i, status);
          wisudas := wisudas[i := updated];
          assert wisudas[i] == updated;
          r := Ok(updated);
      }
    }

    // ---------------------------------------------------------------- krs

    /** `submitKrs`: login, standing, tuition, then the item checks (the loop over
        the normalised items with its `seen` set) and the ceiling; then an upsert on
        (nim, semester). An existing record keeps its id, nim, semester and
        `createdAt` and gets the new items, total, `submittedAt` and status
        SUBMITTED; otherwise one record is appended. Any failure stores nothing. */
    method SubmitKrs(
      user: Option<Identity>, semester: string, items: seq<KrsItemInput>,
      student: Reply<StudentInfo>, tuition: Reply<string>)
      returns (r: Result<Krs, Failure>)
      requires Valid()
      modifies this
      ensures Valid()
      ensures sidangs == old(sidangs) && wisudas == old(wisudas)
      ensures KrsEligibility(user, student, tuition, items, maxSks).Err? ==>
                r == Err(KrsEligibility(user, student, tuition, items, maxSks).error)
      ensures r.Ok? <==>
                && KrsEligibility(user, student, tuition, items, maxSks).Ok?
                && Present(user.value.nim) && Present(semester)
                && forall it :: it in NormalizeItems(items) ==> KrsItemSchemaOk(it)
      ensures KrsEligibility(user, student, tuition, items, maxSks).Ok? && r.Err? ==> r.error == SchemaRejected("Krs")
      ensures r.Err? ==> krsRecords == old(krsRecords)
      ensures r.Ok? ==>
                && r.value.nim == user.value.nim && r.value.semester == semester
                && r.value.items == NormalizeItems(items) && r.value.totalSks == SumSks(r.value.items)
                && r.value.status == Submitted
                && r.value.submittedAt == r.value.updatedAt > old(clock)
      ensures r.Ok? ==> forall i :: 0 <= i < |old(krsRecords)| && KrsKey(old(krsRecords)[i]) == (user.value.nim, semester) ==>
                && krsRecords == old(krsRecords)[i := r.value]
                && r.value.id == old(krsRecords)[i].id && r.value.createdAt == old(krsRecords)[i].createdAt
      ensures r.Ok? && (forall k :: k in old(krsRecords) ==> KrsKey(k) != (user.value.nim, semester)) ==>
                krsRecords == old(krsRecords) + [r.value] && r.value.createdAt == r.value.submittedAt
    {
      if user.None? {
        return Err(NotLoggedIn);
      }
      var nim := user.value.nim;
      var lookup := StudentLookup(student);
      if lookup.Err? {
        return Err(lookup.error);
      }
      if lookup.value.status != "ACTIVE" {
        return Err(InactiveForKrs(lookup.value.status));
      }
      var paid := TuitionGate(tuition);
      if paid.Fail? {
        return Err(paid.error);
      }
      var checked := CheckKrs(items, maxSks);
      if checked.Err? {
        return Err(checked.error);
      }
      var (normalized, total) := checked.value;
      assert KrsEligibility(user, student, tuition, items, maxSks) == Ok((nim, normalized, total));
      r := Upsert(nim, semester, normalized, total);
    }

    /** The commit step of `submitKrs` on already validated items. */
    method Upsert(nim: string, semester: string, normalized: seq<KrsItem>, total: int) returns (r: Result<Krs, Failure>)
      requires Valid()
      requires normalized != [] && ItemsAcceptable(normalized) && total == SumSks(normalized) <= maxSks
      modifies this
      ensures Valid()
      ensures sidangs == old(sidangs) && wisudas == old(wisudas)
      ensures r.Ok? <==> Present(nim) && Present(semester) && forall it :: it in normalized ==> KrsItemSchemaOk(it)
      ensures r.Err? ==> r.error == SchemaRejected("Krs") && krsRecords == old(krsRecords)
      ensures r.Ok? ==>
                && r.value.nim == nim && r.value.semester == semester
                && r.value.items == normalized && r.value.totalSks == total && r.value.status == Submitted
                && r.value.submittedAt == r.value.updatedAt > old(clock)
      ensures r.Ok? ==> forall i :: 0 <= i < |old(krsRecords)| && KrsKey(old(krsRecords)[i]) == (nim, semester) ==>
                && krsRecords == old(krsRecords)[i := r.value]
                && r.value.id == old(krsRecords)[i].id && r.value.createdAt == old(krsRecords)[i].createdAt
      ensures r.Ok? && (forall k :: k in old(krsRecords) ==> KrsKey(k) != (nim, semester)) ==>
                krsRecords == old(krsRecords) + [r.value] && r.value.createdAt == r.value.submittedAt
    {
      var existing := FindKrsByKey(nim, semester);
      match existing {
        case Some(i) =>
          forall j | 0 <= j < |krsRecords| && KrsKey(krsRecords[j]) == (nim, semester) ensures j == i {
          }
          r := ResubmitKrsAt(i, normalized, total);
        case None =>
          r := InsertKrs(nim, semester, normalized, total);
      }
    }

    /** Resubmission: the record at `i` takes the new items, total, status
        SUBMITTED and submission time, then is saved (and validated) again. */
    method ResubmitKrsAt(i: nat, normalized: seq<KrsItem>, total: int) returns (r: Result<Krs, Failure>)
      requires Valid() && i < |krsRecords|
      requires normalized != [] && ItemsAcceptable(normalized) && total == SumSks(normalized) <= maxSks
      modifies this
      ensures Valid()
      ensures sidangs == old(sidangs) && wisudas == old(wisudas)
      ensures r.Ok? <==> forall it :: it in normalized ==> KrsItemSchemaOk(it)
      ensures r.Err? ==> r.error == SchemaRejected("Krs") && krsRecords == old(krsRecords)
      ensures r.Ok? ==>
                && r.value == old(krsRecords)[i].(items := normalized, totalSks := total, status := Submitted,
                                                  submittedAt := old(clock) + 1, updatedAt := old(clock) + 1)
                && krsRecords == old(krsRecords)[i := r.value]
    {
      var now := clock + 1;
      var updated := krsRecords[i].(items := normalized, totalSks := total, status := Submitted,
                                    submittedAt := now, updatedAt := now);
      assert KrsStored(krsRecords[i], maxSks);
      if !KrsSchemaOk(updated) {
        return Err(SchemaRejected("Krs"));
      }
      KrsRecordsReplace(krsRecords, clock, nextId, maxSks, i, updated);
      SidangsGrow(sidangs, clock, nextId, now, nextId);
      WisudasGrow(wisudas, clock, nextId, now, nextId);
      krsRecords := krsRecords[i := updated];
      clock := now;
      r := Ok(updated);
    }

    /** First submission for (nim, semester): a new record, validated on save. */
    method InsertKrs(nim: string, semester: string, normalized: seq<KrsItem>, total: int) returns (r: Result<Krs, Failure>)
      requires Valid() && forall k :: k in krsRecords ==> KrsKey(k) != (nim, semester)
      requires normalized != [] && ItemsAcceptable(normalized) && total == SumSks(normalized) <= maxSks
      modifies this
      ensures Valid()
      ensures sidangs == old(sidangs) && wisudas == old(wisudas)
      ensures r.Ok? <==> Present(nim) && Present(semester) && forall it :: it in normalized ==> KrsItemSchemaOk(it)
      ensures r.Err? ==> r.error == SchemaRejected("Krs") && krsRecords == old(krsRecords)
      ensures r.Ok? ==>
                && r.value == Krs(old(nextId), nim, semester, normalized, total, Submitted,
                                  old(clock) + 1, old(clock) + 1, old(clock) + 1)
                && krsRecords == old(krsRecords) + [r.value]
    {
      var now := clock + 1;
      var created := Krs(nextId, nim, semester, normalized, total, Submitted, now, now, now);
      if !KrsSchemaOk(created) {
        return Err(SchemaRejected("Krs"));
      }
      KrsRecordsAppend(krsRecords, clock, nextId, maxSks, created);
      SidangsGrow(sidangs, clock, nextId, now, nextId + 1);
      WisudasGrow(wisudas, clock, nextId, now, nextId + 1);
      krsRecords := krsRecords + [created];
      clock, nextId := now, nextId + 1;
      r := Ok(created);
    }

    /** `updateKrsStatus`: admin only; the record with that id gets the new status
        and a fresh `updatedAt` (Mongoose timestamps); nothing else changes. */
    method UpdateKrsStatus(user: Option<Identity>, id: RecordId, status: string) returns (r: Result<Krs, Failure>)
      requires Valid()
      modifies this
      ensures Valid()
      ensures sidangs == old(sidangs) && wisudas == old(wisudas)
      ensures RequireAdmin(user).Fail? ==> r == Err(RequireAdmin(user).error)
      ensures r.Ok? <==> RequireAdmin(user).Pass? && exists k :: k in old(krsRecords) && k.id == id
      ensures RequireAdmin(user).Pass? && r.Err? ==> r.error == NotFound(KrsRecords)
      ensures r.Err? ==> krsRecords == old(krsRecords)
      ensures r.Ok? ==> r.value.id == id && r.value.status == status && r.value in krsRecords
      ensures |krsRecords| == |old(krsRecords)|
      ensures r.Ok? ==> r.value.updatedAt > old(clock)
      ensures r.Ok? ==> forall i :: 0 <= i < |krsRecords| ==>
                krsRecords[i] == if old(krsRecords)[i].id == id
                                 then old(krsRecords)[i].(status := status, updatedAt := r.value.updatedAt)
                                 else old(krsRecords)[i]
    {
      var admin := RequireAdmin(user);
      if admin.Fail? {
        return Err(admin.error);
      }
      var found := FindKrs(id);
      match found {
        case None =>
          return Err(NotFound(KrsRecords));
        case Some(i) =>
          assert krsRecords[i] in krsRecords;
          var updated := SetKrsStatusAt(i, status);
          r := Ok(updated);
      }
    }

    /** The save step of `updateKrsStatus` on the record found at `i`. */
    method SetKrsStatusAt(i: nat, status: string) returns (updated: Krs)
      requires Valid() && i < |krsRecords|
      modifies this
      ensures Valid()
      ensures sidangs == old(sidangs) && wisudas == old(wisudas)
      ensures updated == old(krsRecords)[i].(status := status, updatedAt := old(clock) + 1)
      ensures krsRecords == old(krsRecords)[i := updated] && krsRecords[i] == updated
      ensures forall j :: 0 <= j < |krsRecords| ==>
                krsRecords[j] == if old(krsRecords)[j].id == old(krsRecords)[i].id then updated else old(krsRecords)[j]
    {
      updated := krsRecords[i].(status := status, updatedAt := clock + 1);
      KrsRecordsSetStatus(krsRecords, clock, nextId, maxSks, i, updated);
      SidangsGrow(sidangs, clock, nextId, clock + 1, nextId);
      WisudasGrow(wisudas, clock, nextId, clock + 1, nextId);
      krsRecords := krsRecords[i := updated];
      clock := clock + 1;
    }
  }

  // ------------------------------------------------ how each commit keeps the store valid

  lemma SidangsGrow(s: seq<Sidang>, c: Time, n: RecordId, c2: Time, n2: RecordId)
    requires SidangsValid(s, c, n) && c <= c2 && n <= n2
    ensures SidangsValid(s, c2, n2)
  {
  }

  lemma WisudasGrow(w: seq<Wisuda>, c: Time, n: RecordId, c2: Time, n2: RecordId)
    requires WisudasValid(w, c, n) && c <= c2 && n <= n2
    ensures WisudasValid(w, c2, n2)
  {
  }

  lemma KrsRecordsGrow(ks: seq<Krs>, c: Time, n: RecordId, maxSks: int, c2: Time, n2: RecordId)
    requires KrsRecordsValid(ks, c, n, maxSks) && c <= c2 && n <= n2
    ensures KrsRecordsValid(ks, c2, n2, maxSks)
  {
  }

  lemma SidangsAppend(s: seq<Sidang>, c: Time, n: RecordId, x: Sidang)
    requires SidangsValid(s, c, n) && SidangSchemaOk(x) && x.id == n && x.registeredAt == c + 1
    ensures SidangsValid(s + [x], c + 1, n + 1)
  {
    AscendingAppend(s, x, SidangId);
    AscendingAppend(s, x, SidangTime);
  }

  lemma SidangsSetStatus(s: seq<Sidang>, c: Time, n: RecordId, i: nat, status: string)
    requires SidangsValid(s, c, n) && i < |s|
    ensures SidangsValid(s[i := s[i].(status := status)], c, n)
  {
    AscendingReplace(s, i, s[i].(status := status), SidangId);
    AscendingReplace(s, i, s[i].(status := status), SidangTime);
  }

  lemma WisudasAppend(w: seq<Wisuda>, c: Time, n: RecordId, x: Wisuda)
    requires WisudasValid(w, c, n) && WisudaSchemaOk(x) && x.id == n && x.registeredAt == c + 1
    requires forall i :: 0 <= i < |w| ==> WisudaKey(w[i]) != WisudaKey(x)
    ensures WisudasValid(w + [x], c + 1, n + 1)
  {
    AscendingAppend(w, x, WisudaId);
    AscendingAppend(w, x, WisudaTime);
    UniqueAppend(w, x, WisudaKey);
  }

  lemma WisudasSetStatus(w: seq<Wisuda>, c: Time, n: RecordId, i: nat, status: string)
    requires WisudasValid(w, c, n) && i < |w|
    ensures WisudasValid(w[i := w[i].(status := status)], c, n)
  {
    AscendingReplace(w, i, w[i].(status := status), WisudaId);
    AscendingReplace(w, i, w[i].(status := status), WisudaTime);
    UniqueReplace(w, i, w[i].(status := status), WisudaKey);
  }

  lemma KrsRecordsAppend(ks: seq<Krs>, c: Time, n: RecordId, maxSks: int, x: Krs)
    requires KrsRecordsValid(ks, c, n, maxSks) && KrsStored(x, maxSks)
    requires x.id == n && x.createdAt == x.submittedAt == x.updatedAt == c + 1
    requires forall i :: 0 <= i < |ks| ==> KrsKey(ks[i]) != KrsKey(x)
    ensures KrsRecordsValid(ks + [x], c + 1, n + 1, maxSks)
  {
    AscendingAppend(ks, x, KrsId);
    AscendingAppend(ks, x, KrsCreated);
    UniqueAppend(ks, x, KrsKey);
  }

  lemma KrsRecordsReplace(ks: seq<Krs>, c: Time, n: RecordId, maxSks: int, i: nat, x: Krs)
    requires KrsRecordsValid(ks, c, n, maxSks) && i < |ks| && KrsStored(x, maxSks)
    requires x.id == ks[i].id && x.createdAt == ks[i].createdAt && KrsKey(x) == KrsKey(ks[i])
    requires x.submittedAt <= c + 1 && x.updatedAt <= c + 1
    ensures KrsRecordsValid(ks[i := x], c + 1, n, maxSks)
  {
    AscendingReplace(ks, i, x, KrsId);
    AscendingReplace(ks, i, x, KrsCreated);
    UniqueReplace(ks, i, x, KrsKey);
  }

  /** An admin status change on the record at `i`: the store stays valid, and only
      the record with that id changes. */
  lemma KrsRecordsSetStatus(ks: seq<Krs>, c: Time, n: RecordId, maxSks: int, i: nat, x: Krs)
    requires KrsRecordsValid(ks, c, n, maxSks) && i < |ks|
    requires x == ks[i].(status := x.status, updatedAt := c + 1)
    ensures KrsRecordsValid(ks[i := x], c + 1, n, maxSks)
    ensures forall j :: 0 <= j < |ks| && j != i ==> ks[j].id != ks[i].id
  {
    assert KrsStored(ks[i], maxSks);
    KrsRecordsReplace(ks, c, n, maxSks, i, x);
    forall j | 0 <= j < |ks| && j != i ensures ks[j].id != ks[i].id {
      if j < i { assert KrsId(ks[j]) < KrsId(ks[i]); } else { assert KrsId(ks[i]) < KrsId(ks[j]); }
    }
  }

  /** Two course loads of the same student in a store with a unique
      (nim, semester) index are for different semesters. */
  lemma OneRecordPerKey(ks: seq<Krs>, a: Krs, b: Krs)
    requires UniqueKeys(ks, KrsKey)
    requires a in ks && b in ks && a != b && a.nim == b.nim
    ensures a.semester != b.semester
  {
    var i :| 0 <= i < |ks| && ks[i] == a;
    var j :| 0 <= j < |ks| && ks[j] == b;
    if i < j { assert KrsKey(ks[i]) != KrsKey(ks[j]); } else { assert KrsKey(ks[j]) != KrsKey(ks[i]); }
  }
}
