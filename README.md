# KampusData: eligibility orchestrator, finance and student services

This Dafny project models the core of KampusData. KampusData is a set of small
GraphQL services for a university.

The centre of the model is the **academic service**. It runs three student
transactions:

- `registerSidang`: final-exam registration.
- `registerWisuda`: graduation registration.
- `submitKrs`: course-load submission.

Each transaction runs a fixed chain of gates and stops at the first failure.
Only when every gate passes does it save a record. The gates are:

- login;
- academic standing, which must be exactly `ACTIVE`;
- tuition, where the finance service must report exactly `PAID`;
- library clearance, which fails closed;
- for graduation, a latest final exam whose upper-cased status is `PASSED`,
  `APPROVED` or `LULUS`;
- for course loads, the item checks and the credit (sks) ceiling.

Beside the transactions sit:

- three admin-only status updates;
- the caller's own-record queries;
- the Mongoose schemas of the Sidang, Wisuda and Krs collections: required
  fields, defaults, the item `sks` range [1, 6], and the unique
  (nim, period) and (nim, semester) indexes.

Two sibling services are modelled as stores:

- The **finance service** keeps payments. The tuition lookup defaults to
  UNPAID. It also offers verify, invoice, proof upload (which sets PENDING) and
  the payment list.
- The **student service** keeps students. It offers create (with default
  ACTIVE and a unique nim), lookup and status update.

Module `Integration` ties the services together. It connects what those
services answer to what the academic gates decide.

How the model is built:

- **Remote answers.** Each remote lookup's HTTP exchange is an input of type
  `AcademicRemote.Reply`. A reply is one of:
  - no response, with the client's error code;
  - an error response, with its GraphQL errors;
  - a 2xx answer, whose field may be null.
- **Re-catch behaviour.** The model follows each helper's `try`/`catch` exactly.
  A missing `status` or a missing student is thrown inside the `try`, carries
  no `response`, and so reaches the caller as the "tidak merespon/down"
  message.
- **Stores.** Each store is a class. Its collections are sequences in
  insertion order. A `clock` stands in for `Date.now` and advances on every
  save that stamps a time: creating any record, and every save of a course
  load, whose schema has `updatedAt`. Some saves stamp no time and leave the
  clock unchanged: verifying a payment, uploading to an existing payment, and
  changing a sidang's or a wisuda's status. A counter hands out document ids. `Valid()` holds:
  - the schema of every stored record;
  - id and time order;
  - the unique indexes;
  - for course loads, that the stored `totalSks` is the sum of the stored
    items' sks and within the ceiling.

  Every mutating resolver keeps `Valid()` and states its whole new state.
  Every failure leaves the store unchanged.

## Model

| member | source | states |
|---|---|---|
| AcademicAuth.RemoveFirst | academic-service/index.js:19 | `replace('Bearer ', '')` splices out the first occurrence of the marker and keeps everything before and after it; a leading marker is cut off, a string without the marker is unchanged |
| Text.IndexOf | academic-service/index.js:19 | the position where a string search finds a pattern is an occurrence with no earlier one, and -1 exactly when the pattern does not occur |
| AcademicAuth.GetUser | academic-service/index.js:16-25 | an empty header gives no identity; otherwise the identity is what the token verifier returns for the header with the marker removed (a verifier failure gives none) |
| AcademicAuth.RequireAuth | academic-service/index.js:28-30 | passes exactly when there is an identity; otherwise fails with the "belum login" error |
| AcademicAuth.RequireAdmin | academic-service/index.js:32-37 | no identity fails with "belum login" first; a missing role fails with "Hanya admin"; every other failure is "Hanya admin" |
| AcademicAuth.RequireAdminAdmitsAnyCasing | academic-service/index.js:32-37 | the admin check passes exactly for identities whose role spells `admin` in any mix of letter case; a missing role never passes |
| AcademicErrors.DenialNamesObservedValue | academic-service/index.js:78 | each denial message quotes the value that caused it: the tuition, standing or sidang status, the library's reason, or the offending course code |
| AcademicErrors.RemoteMessagesVerbatim | academic-service/index.js:65-68 | a relayed remote error message and the HTTP client's own message reach the caller unchanged |
| AcademicErrors.OverLimitNamesTotalAndLimit | academic-service/index.js:382-384 | the credit-ceiling message contains both the computed total and the ceiling |
| AcademicRemote.HttpFailure | academic-service/index.js:63-71 | an HTTP error reply relays its first GraphQL error verbatim, and otherwise rethrows the client's own error |
| AcademicRemote.PaymentStatus | academic-service/index.js:44-72 | succeeds exactly on a 2xx answer with a non-empty status, returning it; no response, a null field or an empty status all become "Finance Service tidak merespon/down"; an HTTP error reply passes on the remote's first error message verbatim, else the client's own message |
| AcademicRemote.TuitionGate | academic-service/index.js:74-81 | passes exactly when the answer is the status `PAID`; any other status fails naming that status; a lookup failure is passed on unchanged |
| AcademicRemote.StudentLookup | academic-service/index.js:83-110 | succeeds exactly on a 2xx answer carrying a student; a missing student or no response becomes "Student Service tidak merespon/down"; an HTTP error reply passes on the remote's first error message verbatim, else the client's own message |
| AcademicRemote.RejectionReason | academic-service/index.js:135 | a rejection's reason is never empty: the library's own reason when it is non-empty, and the default text "Tidak memenuhi syarat bebas pustaka" when the reason is missing or empty |
| AcademicRemote.ClearanceGate | academic-service/index.js:112-155 | fails closed: passes exactly when the approval flag is literally `true`; a missing clearance fails with its own message; a rejection carries the reason; ECONNREFUSED and ENOTFOUND map to the offline message, any other transport failure keeps its own message; an HTTP error reply relays the remote's first error message, else the client's own message |
| Text.Trim | academic-service/index.js:157 | `trim()` returns a contiguous piece of the input such that everything cut off before and after it is ECMAScript whitespace, with no whitespace left at either end; an already trimmed string is returned unchanged |
| Text.ToLower | academic-service/index.js:34 | `toLowerCase()` keeps the length and maps every character by itself through the lower-case mapping of one letter, so no upper-case ASCII letter is left |
| AcademicErrors.Message | academic-service/index.js:29-411 | each failure is thrown with its own fixed text, with the observed value, total or remote message spliced in where the source interpolates it |
| Text.ToUpper | academic-service/index.js:157 | `toUpperCase()` keeps the length and maps every character by itself through the upper-case mapping of one letter, so no lower-case ASCII letter is left and whitespace stays where it was |
| Text.IntToString | academic-service/index.js:383 | an integer interpolated into a message is a minus sign exactly when it is negative, followed by decimal digits with no leading zero whose value is the integer's magnitude |
| KrsRules.NormalizeCourseCode | academic-service/index.js:157 | a normalised code has no blank at either end and no lower-case letter |
| KrsRules.NormalizeCourseCodeIdempotent | academic-service/index.js:157 | normalising twice is normalising once |
| KrsRules.LeadingBlankIgnored | academic-service/index.js:157 | a leading blank does not change the normalised code |
| KrsRules.BlankAndCaseVariantsCollide | academic-service/index.js:157 | a code, the same code with a leading blank, and its upper-case form all normalise to the same code, so `' cs101'` and `'CS101'` collide |
| KrsRules.NormalizeItems | academic-service/index.js:358-362 | the normalised list has one item per input, each with the normalised code, the name or `''`, and the same sks |
| KrsRules.SumSks | academic-service/index.js:159 | the total of positive sks is at least the number of items, and with non-negative sks no single item exceeds the total |
| KrsRules.ScanItems | academic-service/index.js:364-375 | the per-item checks can only fail with an empty code, a duplicate code or an invalid sks |
| KrsRules.ScanFindsNothingExactly | academic-service/index.js:364-375 | the scan finds nothing exactly when every code is non-empty, every sks is positive and the codes are distinct |
| KrsRules.DuplicateIsNamedCorrectly | academic-service/index.js:364-370 | a duplicate failure names the non-empty code of a real item that occurs earlier in the list (or was seen before), and every earlier item passed all three checks: non-empty code, not seen before, positive sks |
| KrsRules.EmptyCodeIsFound | academic-service/index.js:364-366 | an empty-code failure points at a real item whose normalised code is empty, and every earlier item passed all three checks: non-empty code, not seen before, positive sks |
| KrsRules.InvalidSksIsNamedCorrectly | academic-service/index.js:364-374 | an invalid-sks failure names a real item that passed the empty-code and duplicate checks first (its code is non-empty, not seen before and not repeated earlier) but whose sks is not positive; every earlier item passed all three checks |
| KrsRules.CheckItems | academic-service/index.js:364-375 | the loop with its `seen` set reports exactly the first failure the in-order scan defines |
| KrsRules.CheckKrs | academic-service/index.js:354-384 | the resolver's emptiness check, item loop and ceiling check, run step by step, return exactly the outcome of the validation `ValidateKrs` defines |
| KrsRules.ValidateKrs | academic-service/index.js:354-384 | an empty list is rejected; otherwise the first per-item error the scan of the normalised items finds is the error returned, and with no item error an over-limit total fails naming that total and the ceiling; on success the result is the normalised items with their sum, which is at least the item count and at most the ceiling; an over-limit failure names the real total and the ceiling |
| KrsRules.ValidateKrsAcceptsExactly | academic-service/index.js:354-384 | the validation accepts exactly the non-empty lists whose normalised items are acceptable and whose total is within the ceiling |
| KrsRules.OverSixSksPassesResolver | academic-service/models/Krs.js:8 | an item with more than 6 sks passes every resolver check when the ceiling allows it, yet fails the schema's `max: 6` |
| Queries.NewestFirst | academic-service/index.js:232 | `find(filter).sort(...)` returns exactly the records the filter selects, and no more records than are stored |
| Queries.NewestFirstDescends | academic-service/index.js:232 | on a collection in creation order, the listing is in strictly descending time |
| Queries.NewestFirstKeepsAll | finance-service/index.js:66 | an unfiltered listing has as many records as the collection |
| Queries.Newest | academic-service/index.js:302 | `findOne(filter).sort(...)` finds a record exactly when one matches, and it is a matching stored record |
| Queries.NewestIsLatest | academic-service/index.js:302 | on a collection in creation order, no matching record is newer than the one returned |
| Eligibility.LatestSidang | academic-service/index.js:302 | the latest sidang exists exactly when the student has one, and it is one of theirs |
| Eligibility.LatestSidangIsNewest | academic-service/index.js:302 | the latest sidang is at least as recent as every other sidang of the student |
| Eligibility.PrecedenceGate | academic-service/index.js:303-312 | no sidang fails with "daftar sidang terlebih dahulu"; a failing status is quoted as stored |
| Eligibility.PrecedenceAcceptsAnyCasing | academic-service/index.js:307-308 | the gate passes exactly when the latest status spells PASSED, APPROVED or LULUS in any ASCII letter case, and nothing looser |
| Eligibility.RegisteredSidangBlocks | academic-service/models/Sidang.js:17-20 | a latest sidang with the default status REGISTERED blocks graduation, naming REGISTERED |
| Eligibility.ApprovedPasses | academic-service/index.js:307-308 | a latest sidang with status APPROVED passes the precedence gate |
| Eligibility.ReplacedLatestStaysLatest | academic-service/index.js:276 | changing the latest sidang's status in place keeps it the latest |
| Eligibility.ApprovingLatestOpensPrecedence | academic-service/index.js:272-278 | an admin approving the caller's latest sidang opens the precedence gate |
| Eligibility.SidangEligibility | academic-service/index.js:255-265 | the chain succeeds exactly when logged in, tuition is `PAID` and the library approves; each stage's failure is reported exactly: not logged in, then the tuition gate's error, then the clearance gate's error |
| Eligibility.WisudaEligibility | academic-service/index.js:283-312 | the chain succeeds exactly when logged in, standing is `ACTIVE`, tuition is `PAID`, the library approves and the precedence gate passes; the first unmet stage's error is returned: not logged in, the student lookup's error, the inactive standing named, the tuition gate's error, the clearance gate's error, then the precedence gate's error; without any sidang that is "belum memiliki data sidang" |
| Eligibility.KrsEligibility | academic-service/index.js:338-384 | the chain succeeds exactly when logged in, standing is `ACTIVE`, tuition is `PAID` and the items validate; the first unmet stage's error is returned: not logged in, the student lookup's error, the inactive standing named, the tuition gate's error, then the validation's error; on success it yields the normalised items and their total within the ceiling |
| Eligibility.TuitionFailureHidesLaterGates | academic-service/index.js:295-299 | once tuition fails, neither the library's answer, nor the sidang history, nor the course list changes any chain's outcome |
| AcademicService.AcademicStore.FindSidang | academic-service/index.js:274 | `findById` finds a record exactly when one has that id |
| AcademicService.AcademicStore.FindWisuda | academic-service/index.js:329 | `findById` finds a record exactly when one has that id |
| AcademicService.AcademicStore.FindWisudaByKey | academic-service/models/Wisuda.js:27 | finds the record with that (nim, period) exactly when one exists |
| AcademicService.AcademicStore.FindKrs | academic-service/index.js:410 | `findById` finds a record exactly when one has that id |
| AcademicService.AcademicStore.FindKrsByKey | academic-service/index.js:387 | `findOne({ nim, semester })` finds the record exactly when one exists |
| AcademicService.AcademicStore.MySidang | academic-service/index.js:230-233 | requires login; returns exactly the caller's sidangs, newest first |
| AcademicService.AcademicStore.MyWisuda | academic-service/index.js:235-238 | requires login; returns exactly the caller's graduation registrations, newest first |
| AcademicService.AcademicStore.MyKrs | academic-service/index.js:240-243 | requires login; returns the caller's course load for that semester, or null exactly when none exists |
| AcademicService.AcademicStore.MyKrsHistory | academic-service/index.js:245-248 | requires login; returns exactly the caller's course loads, newest first, at most one per semester |
| AcademicService.AcademicStore.RegisterSidang | academic-service/index.js:255-270 | any gate failure is returned and stores nothing; otherwise exactly one sidang is appended, with the caller's nim, the title, status REGISTERED, a fresh id and the newest time |
| AcademicService.AcademicStore.UpdateSidangStatus | academic-service/index.js:272-278 | admin only, no remote gate; an unknown id fails with "Data sidang tidak ditemukan" and changes nothing; otherwise only that record's status changes |
| AcademicService.AcademicStore.RegisterWisuda | academic-service/index.js:283-325 | any gate failure is returned and stores nothing; an existing (nim, period) gives "sudah terdaftar wisuda" and no second record; otherwise one REGISTERED record is appended |
| AcademicService.AcademicStore.InsertWisuda | academic-service/index.js:314-324 | the save refuses an empty nim or period and a taken (nim, period); otherwise it appends one REGISTERED record |
| AcademicService.AcademicStore.UpdateWisudaStatus | academic-service/index.js:327-333 | admin only, no remote gate; an unknown id fails with "Data wisuda tidak ditemukan" and changes nothing; otherwise only that record's status changes |
| AcademicService.AcademicStore.SubmitKrs | academic-service/index.js:338-406 | any gate or validation failure is returned and stores nothing; otherwise the (nim, semester) record is replaced in place (keeping its id and `createdAt`) or appended, with the normalised items, their sum and status SUBMITTED; the store keeps one record per (nim, semester) with totals equal to item sums |
| AcademicService.AcademicStore.Upsert | academic-service/index.js:386-405 | an existing (nim, semester) record is updated in place and no second one is created; otherwise one record is appended; a save the schema refuses changes nothing |
| AcademicService.AcademicStore.ResubmitKrsAt | academic-service/index.js:388-393 | resubmission replaces the items, the total and `submittedAt`, resets the status to SUBMITTED even from APPROVED, refreshes `updatedAt` and keeps everything else |
| AcademicService.AcademicStore.InsertKrs | academic-service/index.js:396-398 | a first submission stores the items and total with the defaults: status SUBMITTED and `submittedAt`, `createdAt` and `updatedAt` all at the save time |
| AcademicService.AcademicStore.UpdateKrsStatus | academic-service/index.js:408-414 | admin only, no remote gate; an unknown id fails with "Data KRS tidak ditemukan" and changes nothing; otherwise only that record's status and `updatedAt` change |
| AcademicService.AcademicStore.SetKrsStatusAt | academic-service/index.js:412-413 | the save sets the status and refreshes `updatedAt` of the one record with that id, and leaves every other record unchanged |
| AcademicService.OneRecordPerKey | academic-service/models/Krs.js:47 | two distinct stored course loads of one student are for different semesters |
| PaymentModel.NewPayment | finance-service/models/Payment.js:4-27 | a new payment takes the defaults: amount 1500000, status UNPAID, no proof file and the creation time; it passes the schema exactly when the nim is present |
| FinanceService.FirstPaymentOf | finance-service/index.js:58 | `findOne({ nim })` finds the first stored payment of the nim, and none exactly when the nim has no payment |
| FinanceService.LaterPaymentsDoNotChangeReport | finance-service/index.js:57-64 | once a nim has a payment, payments added later never change the reported status |
| FinanceService.FirstPaymentOfNewStudent | finance-service/index.js:57-64 | for a nim without payments, a payment created for it becomes the one reported |
| FinanceService.FinanceStore.FindByNim | finance-service/index.js:71 | the scan finds exactly the first payment of the nim |
| FinanceService.FinanceStore.CheckTuitionStatus | finance-service/index.js:57-64 | returns the first stored payment of the nim; without one, an UNPAID payment with the default amount that is not stored |
| FinanceService.FinanceStore.AllPayments | finance-service/index.js:65-67 | returns every stored payment, no more and no fewer, newest `createdAt` first |
| FinanceService.FinanceStore.VerifyPayment | finance-service/index.js:70-76 | an unknown nim fails with "Data pembayaran tidak ditemukan" and a status outside the enumeration is refused, both changing nothing; otherwise only the first payment's status changes |
| FinanceService.FinanceStore.CreateInvoice | finance-service/index.js:77-80 | always appends a new PAID payment with the given amount and a fresh id, and never touches existing payments; an empty nim is refused |
| FinanceService.FinanceStore.Upload | finance-service/index.js:92-116 | a missing nim or file gives a 400 and changes nothing; otherwise the first payment of the nim (or a new default one) gets PENDING and the file name |
| StudentModel.NewStudent | student-service/models/Student.js:3-22 | a new student's status is the default ACTIVE; it passes the schema exactly when nim, fullName and major are present |
| StudentService.StudentStore.FindByNim | student-service/index.js:53 | `findOne({ nim })` finds a student exactly when one has that nim |
| StudentService.StudentStore.Students | student-service/index.js:36-38 | returns all stored students |
| StudentService.StudentStore.StudentByNim | student-service/index.js:39-41 | returns the one student with that nim, or null exactly when there is none |
| StudentService.StudentStore.CreateStudent | student-service/index.js:44-51 | succeeds exactly when the three fields are present and the nim is not taken, appending an ACTIVE student; every failure is "Gagal membuat data" and stores nothing |
| StudentService.StudentStore.UpdateStatus | student-service/index.js:52-58 | an unknown nim fails with "Mahasiswa tidak ditemukan" and a status outside the enumeration is refused, both changing nothing; otherwise only that student's status changes, and the nim stays unique |
| Integration.TuitionGateReadsFirstPayment | finance-service/index.js:57-64 | the academic tuition gate passes exactly when the student's first stored payment is PAID; a student without payments is denied as UNPAID |
| Integration.InvoiceAfterUnpaidStaysDenied | finance-service/index.js:77-80 | once a student's first payment is not PAID, creating more payments (a PAID invoice included) never opens the tuition gate |
| Integration.StandingGateReadsStudentStatus | student-service/index.js:39-41 | the standing check passes exactly for a stored ACTIVE student; an unknown student reaches the academic service as "Student Service tidak merespon/down" |

## Left out

- HTTP transport is not modelled: Express and Apollo setup, `startServer`,
  axios, and the GraphQL query strings. Each remote answer is an input
  instead, and logging is omitted.
- `jwt.verify` is a parameter of `GetUser`. The token format and its secret
  are not modelled.
- The default service URLs are not modelled.
- The multipart middleware is left out: its disk storage, the uploaded file's
  stored name and static serving. The file name is an input of `Upload`.
- A malformed id string (Mongoose's CastError in `findById`) is not
  modelled. Ids are natural numbers.
- Parsing of `MAX_SKS` is not modelled. The ceiling is the store's `maxSks`
  parameter, and `KrsRules.DefaultMaxSks` is 24.
- The duplicate-key race on a first course-load insert (error 11000 in
  `submitKrs`) is not modelled. The model is sequential: the preceding lookup
  makes the insert's key free, so the race branch is unreachable here.
- The 500 answer of `/upload` is not modelled. The saved payment always has a
  present nim and an enumerated status, so saving it cannot fail here.
- `Number.isInteger` on `sks` is not modelled separately. A GraphQL `Int` is
  already an integer, so only the `<= 0` half of that check can fail.
- Mongoose's `items` and `totalSks` defaults are not modelled, because the
  resolver always supplies both.
- Mongoose skips saving a document with no changes. That skip is not
  modelled: every save refreshes `updatedAt`.
- Mongoose's validation error texts are approximated. `SchemaRejected(model)`
  stands for Mongoose's multi-line validation message.
- `Text.ToUpper` and `Text.ToLower` map the ASCII letters only; all other
  characters stay unchanged. JavaScript's full Unicode case mapping is not
  modelled.
- Eligibility.PrecedenceAcceptsAnyCasing covers ASCII case variants only. In
  JavaScript, `toUpperCase()` also turns non-ASCII spellings such as "paßed"
  into PASSED and "luluſ" into LULUS. The model rejects those statuses.
- FinanceService.FirstPaymentOf assumes that `findOne({ nim })` without a sort
  returns the first-inserted payment. MongoDB does not guarantee natural
  order. FinanceService.LaterPaymentsDoNotChangeReport,
  Integration.InvoiceAfterUnpaidStaysDenied and the other lemmas about "the
  first payment" rely on this assumption.
- `PaymentModel.Amount` is a real number. The services never compute with it,
  and JavaScript floating-point rounding is not modelled.
- Concurrency and interleaving of requests are not modelled.
- Dates are modelled as a natural-number clock, not as `Date` values. The clock
  advances strictly on every save that stamps a time, so no two records share a
  timestamp. Two saves within the same `Date.now` millisecond are left out. For
  them MongoDB leaves the order among equal sort keys unspecified, so
  Queries.NewestFirstDescends and Eligibility.LatestSidangIsNewest do not
  cover that case.
