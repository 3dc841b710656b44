# Manual payment approval with one-time codes — a Dafny model

This project models the backend workflow that turns a user's proof of an
off-platform payment into credited coins. It also models two small helpers.

The workflow:
- A user submits proof, which creates a `pending` row in `manual_payments`.
- An admin approves it. This issues a 6-digit one-time code and stores only the code's SHA-256 digest and an expiry.
- An admin can also issue a fresh code or reject the payment.
- The user sends the code back. Verification runs a fixed sequence of checks and keeps a per-payment failure counter with a 15-minute lockout after five failures. On success it marks the payment `completed`, adds its amount to the user's `coins` and deletes the counter.
- Every successful admin write appends one `admin_logs` entry.

The helpers:
- The code generator and digest comparison.
- The frontend's six-box code entry and its `m:ss` countdown.

## How it is modelled

- `Store` holds the tables:
  - `manual_payments`, `otp_attempts` and the `coins` column of `users`, each a `map`;
  - `admin_logs`, a `seq`.

  `Tables` is a value snapshot of all four. `Database` is the class whose fields the handlers update. `Invariant` states what the schema and routes keep true: fresh identifiers, the foreign key from `manual_payments.user_id` to `users` and the one from `otp_attempts.payment_id` to `manual_payments`, an approved payment has a digest and an expiry, and a completed payment has been used and has no attempt row.
- Each route is a function from the store before the request to a pair: the store after it and the reply. The lemmas are stated about these functions. Each writing route is also a module-level method that takes the `Database` as a parameter and updates its fields step by step, as the handler does. Its `ensures` ties the new snapshot and the reply to the function, and states that `Invariant` still holds.
- Times are integer milliseconds (`now` is a parameter). Amounts are integer cents, since the columns are DECIMAL(10,2).
- The caller is the `{userId, role}` that the authentication middleware attaches. Admin routes answer 403 unless `role == "admin"`.
- The digest function is a parameter: any total function `string -> string`, so it is deterministic by construction. Two lemmas need distinct codes to have distinct digests. They assume this only for 6-digit codes, in a `requires` clause (`Otp.InjectiveOnCodes`).
- `crypto.randomInt` is an arbitrary choice (`:|`) inside the generator's loop.
- Database-generated UUIDs are drawn from a counter `nextId`.
- For the listings, rows are enumerated by identifier and sorted newest first by a stable insertion sort. SQL leaves the order of rows with equal `created_at` open, and this is one of the orders it allows.

## Where the code departs from the intended workflow

The model follows the code, including the places below where the code does not do what the workflow is meant to do.
- **Approve has no status guard**: `WHERE id = $4` only. Approving is meant for payments that are `pending` or `approved`. In the code it succeeds on `completed` and `rejected` payments too and moves them back to `approved` (`ApproveReopensClosedPayments`). So `completed` and `rejected` are not final states.
- **Approve keeps `otp_used_at`, and regenerate clears it.** Together with the missing status guard, this lets one submission be credited twice (`CompletedPaymentCreditedAgain`, `OneSubmissionCreditedTwice`): complete, approve, regenerate, verify with the new code. Approve alone is not enough: the new code then gets "OTP already used" (`ReapprovedCompletedStaysUsed`). So a payment can be credited more than once.
- **Amount validation checks only falsiness.** So a zero amount is refused but a negative one is stored (`UploadAcceptsNegativeAmount`).
- **The code checks for a missing code first.** Verify tests for a missing code (400) before the ownership check.
- **The failure counter is never reset when a lock runs out.** From the fifth failure on, every wrong code locks again at once (`FailureAfterLockRelocks`).

## Model

| member | source | states |
|---|---|---|
| `Otp.GenerateOtp` | backend/src/utils/otp.ts:3-10 | the code has exactly `length` characters (none for a non-positive length), each one of `0`..`9`; the length defaults to 6 |
| `Otp.DigitsAreDigits` | backend/src/utils/otp.ts:4 | the ten-character alphabet is made of decimal digits, so any index in [0, 10) gives a digit |
| `Otp.VerifyOtp` | backend/src/utils/otp.ts:16-19 | true exactly when the input's digest equals the stored digest |
| `Otp.VerifyRoundTrip` | backend/src/utils/otp.ts:12-19 | a code always verifies against its own digest |
| `Otp.HashDeterministic` | backend/src/utils/otp.ts:12-14 | equal codes give equal digests |
| `Otp.HashOtp` | backend/src/utils/otp.ts:12-14 | the stored digest of a code: the digest function applied to the code, with nothing added |
| `Otp.VerifyRejectsOtherCodes` | backend/src/utils/otp.ts:16-19 | if distinct 6-digit codes have distinct digests, another 6-digit code never verifies against a code's digest |
| `Store.Database.constructor` | backend/src/db/migrate.ts:8-67 | a fresh store has the given users, no payments, no attempts and an empty log, and satisfies the invariant |
| `Ordering.Insert` | backend/src/routes/admin.ts:25 | inserting into a newest-first list keeps it newest first and adds exactly that one element |
| `Ordering.SortNewest` | backend/src/routes/admin.ts:25 | the result is ordered by `created_at` descending and is a permutation of the input |
| `Ordering.Select` | backend/src/routes/admin.ts:24 | every selected id names a row below the bound that passes the filter |
| `Ordering.SelectCount` | backend/src/routes/admin.ts:24 | every row passing the filter is selected exactly once, and nothing else is selected |
| `Ordering.Take` | backend/src/routes/payments.ts:194 | LIMIT n keeps the first min(n, length) entries |
| `Ordering.SortedSelectCount` | backend/src/routes/admin.ts:22-25 | with all ids below the bound, the sorted selection holds each matching row exactly once and nothing else |
| `Ordering.PrefixCount` | backend/src/routes/payments.ts:194 | a prefix holds each element at most as often as the whole list |
| `Ordering.TopOrdered` | backend/src/routes/payments.ts:193-194 | a limited listing is a newest-first prefix of the sorted selection, of length min(n, number of matches) |
| `Ordering.TopMembers` | backend/src/routes/payments.ts:192-194 | every entry of a limited listing matches the filter and none appears twice |
| `Ordering.TopNewest` | backend/src/routes/payments.ts:193-194 | a matching row left out by the limit is no newer than any listed row, and nothing is left out when all fit |
| `PaymentRoutes.GetPayment` | backend/src/routes/payments.ts:9-30 | the row's id, owner, amount, status, expiry and timestamps when the row exists and belongs to the caller, otherwise the 404 reply |
| `PaymentRoutes.GetPaymentOwnerOnly` | backend/src/routes/payments.ts:13-26 | the payment is returned exactly when it exists and belongs to the caller, with its id, amount and status |
| `PaymentRoutes.GetPaymentHidesOthers` | backend/src/routes/payments.ts:13-24 | another user's payment gets the same 404 as a payment that does not exist |
| `PaymentRoutes.Upload` | backend/src/routes/payments.ts:33-59 | 400 with no change for a zero amount or an empty proof; a failed INSERT with no change for a caller without a `users` row; otherwise a new pending row under a fresh id, reply 201 with that id |
| `PaymentRoutes.UploadEffect` | backend/src/routes/payments.ts:36-48 | a falsy amount or proof gives 400 and no change; a caller without a users row gives an INSERT failure and no change; otherwise exactly one new pending row with a fresh id appears, owned by the caller and holding the given amount, and nothing else changes |
| `PaymentRoutes.UploadAcceptsNegativeAmount` | backend/src/routes/payments.ts:36-48 | every negative amount, with a non-empty proof from a caller who has a `users` row, is accepted and stored as given in a new pending row |
| `PaymentRoutes.UploadPreservesInvariant` | backend/src/routes/payments.ts:41-48 | submitting keeps the store invariant |
| `PaymentRoutes.UploadProof` | backend/src/routes/payments.ts:33-59 | the handler's new store and reply are those of `Upload`, and the invariant is kept |
| `PaymentRoutes.Verify` | backend/src/routes/payments.ts:62-165 | the checks in the route's order (code present, owned row, lock, status, expiry, unused, digest); a wrong digest bumps the counter; a right one completes the payment, credits the owner and deletes the counter |
| `PaymentRoutes.VerifyCheckOrder` | backend/src/routes/payments.ts:66-134 | the reply is decided by the first failing check, in the order: code missing (400), no owned payment (404), locked (429), not approved (400), expired (400), already used (400), digest mismatch (400); success exactly when all pass |
| `PaymentRoutes.VerifyAtExpiryInstant` | backend/src/routes/payments.ts:107 | the expiry check is strict: a right code sent exactly at `otp_expires_at` succeeds |
| `PaymentRoutes.VerifyHidesOthers` | backend/src/routes/payments.ts:72-83 | verifying another user's payment gives 404 and no change, exactly as for a missing payment |
| `PaymentRoutes.VerifyFailureChangesOnlyAttempts` | backend/src/routes/payments.ts:81-134 | a failed verify leaves payments, coins and the log unchanged; only a digest mismatch touches `otp_attempts`, and only that payment's row |
| `PaymentRoutes.VerifyFailureCounter` | backend/src/routes/payments.ts:117-133 | the first wrong code inserts a counter of 1 with no lock; a later wrong code sets count+1 and sets `locked_until = now + 15 min` exactly when the new count is at least 5 |
| `PaymentRoutes.VerifySuccessEffect` | backend/src/routes/payments.ts:136-160 | success reports `coinsAdded == amount`, sets `completed` and `otp_used_at = now`, adds exactly `amount` to the owner's coins, deletes the attempt row, and changes nothing else |
| `PaymentRoutes.VerifyAfterSuccessFails` | backend/src/routes/payments.ts:101-145 | after a success, every further verify on that payment, with any non-empty code, fails and changes nothing: the owner gets "not approved", anyone else 404 |
| `PaymentRoutes.VerifyPreservesInvariant` | backend/src/routes/payments.ts:62-165 | verifying keeps the store invariant |
| `PaymentRoutes.VerifyOtp` | backend/src/routes/payments.ts:62-165 | the handler, with its local attempt count, yields the new store and reply of `Verify`, and keeps the invariant |
| `PaymentRoutes.Balance` | backend/src/routes/payments.ts:168-183 | the caller's coins, or the 404 reply when the caller has no `users` row |
| `PaymentRoutes.BalanceAfterVerify` | backend/src/routes/payments.ts:147-151 | after a success the balance route reports the old balance plus the reported `coinsAdded` |
| `PaymentRoutes.BalanceAfterFailedVerify` | backend/src/routes/payments.ts:116-134 | a verify that does not succeed changes nobody's balance |
| `PaymentRoutes.History` | backend/src/routes/payments.ts:186-203 | the caller's payments ordered by `created_at` descending, at most 20 of them |
| `PaymentRoutes.HistorySpec` | backend/src/routes/payments.ts:186-203 | the history lists only the caller's payments, each at most once, newest first; it holds min(20, their number) entries and all of them when there are at most 20; any payment left out is no newer than every listed one |
| `AdminRoutes.OpenPayments` | backend/src/routes/admin.ts:9-31 | for an admin, the `pending` and `approved` payments whose owner has a `users` row, newest first; for anyone else the 403 reply |
| `AdminRoutes.OpenPaymentsSpec` | backend/src/routes/admin.ts:9-31 | an admin gets exactly the `pending` and `approved` payments, each once, newest first; anyone else gets 403 |
| `AdminRoutes.Approve` | backend/src/routes/admin.ts:34-72 | 403 for a non-admin; 404 with no change for an unknown id; otherwise the row, whatever its status, is updated as the SET list says and one `approve_payment` entry is logged |
| `AdminRoutes.ApproveEffect` | backend/src/routes/admin.ts:39-61 | approve succeeds on any existing payment whatever its status; the new payments table is the old one with only that row changed, and in it only `status` (to `approved`), the digest, `expires = now + OTP_EXPIRY_MINUTES minutes`, the notes and `updated_at = now`; `otp_used_at`, the amount, the owner, `proof_image` and `created_at` are kept; one `approve_payment` entry is appended; an unknown id gives 404 with no change and no entry |
| `AdminRoutes.ApproveReopensClosedPayments` | backend/src/routes/admin.ts:43-51 | a completed or rejected payment is moved back to `approved` |
| `AdminRoutes.ApprovePreservesInvariant` | backend/src/routes/admin.ts:43-51 | approving keeps the store invariant |
| `AdminRoutes.ApprovePayment` | backend/src/routes/admin.ts:34-72 | the handler stores the digest of a fresh 6-digit code and yields the new store and reply of `Approve`, keeping the invariant |
| `AdminRoutes.Regenerate` | backend/src/routes/admin.ts:75-107 | 403 for a non-admin; 404 with no change unless the row exists and is `approved`; otherwise the row is updated as the SET list says and one `regenerate_otp` entry is logged |
| `AdminRoutes.RegenerateEffect` | backend/src/routes/admin.ts:79-101 | regenerate succeeds exactly on an approved payment; the new payments table is the old one with only that row changed, and in it only the digest, the expiry, `otp_used_at` (to null) and `updated_at = now`; status, notes, amount, owner, `proof_image` and `created_at` are kept; one `regenerate_otp` entry is appended; otherwise it gives 404 with no change |
| `AdminRoutes.RegeneratePreservesInvariant` | backend/src/routes/admin.ts:83-91 | regenerating keeps the store invariant |
| `AdminRoutes.RegenerateOtp` | backend/src/routes/admin.ts:75-107 | the handler stores the digest of a fresh 6-digit code and yields the new store and reply of `Regenerate`, keeping the invariant |
| `AdminRoutes.Reject` | backend/src/routes/admin.ts:110-139 | 403 for a non-admin; 404 with no change unless the row is `pending` or `approved`; otherwise the row becomes `rejected` with the reason as its notes, and one `reject_payment` entry is logged |
| `AdminRoutes.RejectEffect` | backend/src/routes/admin.ts:115-133 | reject succeeds exactly from `pending` or `approved`, setting `rejected` and the notes and appending one `reject_payment` entry; from `completed`, from `rejected` or for an unknown id it gives 404 with no change |
| `AdminRoutes.RejectPreservesInvariant` | backend/src/routes/admin.ts:115-123 | rejecting keeps the store invariant |
| `AdminRoutes.RejectPayment` | backend/src/routes/admin.ts:110-139 | the handler yields the new store and reply of `Reject`, keeping the invariant |
| `AdminRoutes.AdminLogAppendOnly` | backend/src/routes/admin.ts:57-61 | each successful approve, regenerate or reject appends exactly one entry, carrying its action name, the admin and the payment, after the untouched old log; a non-success appends nothing |
| `Lifecycle.SuccessPath` | backend/src/routes/payments.ts:136-160 | submit, approve, then verify with the issued code before expiry: the payment is completed, the counter is gone, and the balance has grown by the amount |
| `Lifecycle.RepeatedFailures` | backend/src/routes/payments.ts:117-133 | starting with no counter, any k consecutive wrong codes (k ≤ 5), each sent at its own time before expiry, leave a count of k stamped with the last time; only the fifth sets a lock, for 15 minutes from its own time; payments and coins are untouched |
| `Lifecycle.LockedAfterFiveFailures` | backend/src/routes/payments.ts:93-99 | after five wrong codes, sent at any times before expiry, any verify before 15 minutes have passed since the fifth gets 429, the right code included, and changes nothing |
| `Lifecycle.FailureAfterLockRelocks` | backend/src/routes/payments.ts:120-126 | once five failures are recorded and the lock has run out, the next wrong code locks again for 15 minutes |
| `Lifecycle.RegenerateInvalidatesPreviousCode` | backend/src/routes/admin.ts:83-91 | after a new code is issued, the previous code gets "Invalid OTP", given that distinct 6-digit codes have distinct digests |
| `Lifecycle.ReapprovedCompletedStaysUsed` | backend/src/routes/admin.ts:46 | re-approving a completed payment keeps `otp_used_at`, so the new code gets "OTP already used" |
| `Lifecycle.CompletedPaymentCreditedAgain` | backend/src/routes/admin.ts:43-91 | approve, regenerate, then verify with the newest code credits a completed payment's amount a second time |
| `Lifecycle.OneSubmissionCreditedTwice` | backend/src/routes/payments.ts:33-160 | one submission, taken through submit, approve, verify, approve, regenerate, verify, gives two successes and raises the balance by twice the amount |
| `OtpInput.JoinOfSingleDigits` | frontend/src/components/OTPInput.tsx:28-31 | slots holding one digit each join, in order, into a code of as many digits, slot i giving digit i |
| `OtpInput.Boxes.constructor` | frontend/src/components/OTPInput.tsx:11-12 | the initial state has `length` slots, 6 by default, all empty |
| `OtpInput.Boxes.HandleChange` | frontend/src/components/OTPInput.tsx:15-32 | a value that is not all digits changes nothing and completes nothing; otherwise only slot `index` takes the value; completion happens exactly when the value is non-empty and every slot is filled, and its argument is the slots joined in order |
| `OtpInput.OnTick` | frontend/src/components/OTPInput.tsx:80-87 | when `diff <= 0` the state is expired with 0 remaining; otherwise it is not expired and `remaining` is the whole seconds left, rounded down |
| `OtpInput.ZeroRemainingNotExpired` | frontend/src/components/OTPInput.tsx:85-86 | any time left strictly between 0 and 1000 ms shows 0 remaining without being expired |
| `OtpInput.Clock` | frontend/src/components/OTPInput.tsx:93-94 | `minutes * 60 + seconds == remaining` and `0 <= seconds < 60` |
| `OtpInput.ShowNatRoundTrip` | frontend/src/components/OTPInput.tsx:104 | a number's decimal rendering is a non-empty digit string that reads back as the number |
| `OtpInput.SecondsFieldRoundTrip` | frontend/src/components/OTPInput.tsx:104 | the padded seconds field has exactly two digits and reads back as the seconds |
| `OtpInput.CountdownText` | frontend/src/components/OTPInput.tsx:93-105 | the expired label once expired; otherwise the running prefix, the minutes, a colon and the seconds padded to two digits |
| `OtpInput.CountdownTextReadsBack` | frontend/src/components/OTPInput.tsx:93-104 | the running display is the minutes, a colon and two seconds digits, and minutes * 60 + seconds reads back as `remaining` |

## Left out

- SQL and the database driver are not modelled. Each query is a map or sequence operation. The 500 catch-all replies are not modelled, with one exception: an upload by a caller without a `users` row fails the foreign key, and this is modelled as a failed INSERT with no change.
- The `admin_logs` INSERT can fail on its `admin_id` foreign key to `users` (backend/src/db/migrate.ts:30) when the admin has no `users` row. It runs after the UPDATE, which has already been committed (backend/src/routes/admin.ts:43-61, 83-101, 115-133). The route then replies 500 with the payment changed and nothing logged. The model always appends the entry. The `otp_attempts.user_id` foreign key is not part of `Invariant` either.
- A verify request whose `otp` is a non-empty value that is not a string makes `hashOTP` throw (backend/src/routes/payments.ts:117), and the route replies 500. The model takes `otp` to be a string.
- Concurrency and atomicity are not modelled. Verify reads and writes in separate queries with no transaction. Each request is modelled as one atomic step, so races are out of scope.
- SHA-256 and `crypto.randomInt` are foreign calls. They are an arbitrary digest function and an arbitrary digit choice.
- The timers are not modelled. Database `CURRENT_TIMESTAMP`, `Date.now()` and `setInterval` all become the single `now` parameter.
- Authentication (bcrypt, JWT issuance and verification, the 401 replies) is external. The caller is an injected `{userId, role}`.
- `otp_code` is declared `VARCHAR(10)`, which cannot hold the 64-character hex digest the routes write. The model assumes unbounded columns.
- DECIMAL(10,2) overflow of `amount` or `coins` is not modelled; the database would reject such a write. Neither is rounding of amounts that have more than two decimals.
- A payment id that is not a valid UUID makes the database raise an error; this is not modelled.
- The upload's falsiness test is modelled for an integer amount (0 is falsy) and a string proof ("" is falsy). JSON values of other types are not modelled.
- `proof_image` is an opaque string. Delivery of the plaintext code to the user is not in the code. The admin handlers expose it only as a ghost out-parameter, so that lemmas can speak of it.
- `PaymentRoutes.GetPayment`, `PaymentRoutes.History` and `AdminRoutes.OpenPayments` return the payment ids or the public columns, not every selected column. The admin listing's `username` column from the JOIN is not modelled either.
- `Otp.GenerateOtp`: a non-integer `length` is not modelled.
- The frontend's focus moves, `handleKeyDown`, sounds, animation, the `onExpired` callback and the clearing of the interval are rendering side effects and are not modelled.
- Controlled inputs only pass an index inside the slot array. Writing past the end, which would grow a JavaScript array, is not modelled; `HandleChange` requires `index < |slots|`.
- The other frontend pages, the API wrappers, the session hook and the configuration files have no logic of the core.
