/**
 * Properties of sequences of requests, across the user routes and the admin
 * routes: the success path, the lockout after five wrong codes, a new code
 * invalidating the previous one, and the second credit of a completed
 * payment that the admin routes make possible.
 */
module Lifecycle {
  import opened Wrappers
  import opened Store
  import Otp
  import opened PaymentRoutes
  import opened AdminRoutes

  /**
   * Submit, approve, verify with the issued code before it expires: the
   * payment ends completed, its counter row is gone, and the owner's balance
   * has grown by the amount.
   */
  lemma SuccessPath(t: Tables, user: Caller, admin: Caller, amount: Cents, proof: string, notes: Option<string>,
                    code: string, hash: Otp.Hasher, submitted: Time, approved: Time, verified: Time, expiryMinutes: int)
    requires Invariant(t)
    requires user.userId in t.coins && IsAdmin(admin)
    requires amount != 0 && proof != "" && code != ""
    requires verified <= approved + expiryMinutes * MinuteMs
    ensures var up := Upload(t, user, amount, proof, submitted);
      up.reply.Created? &&
      var id := up.reply.paymentId;
      var ap := Approve(up.tables, admin, id, notes, hash(code), approved, expiryMinutes);
      var ve := Verify(ap.tables, user, id, code, verified, hash);
      && ap.reply == Done(id)
      && ve.reply == Verified(amount)
      && ve.tables.payments[id].status == Completed
      && id !in ve.tables.attempts
      && ve.tables.coins[user.userId] == t.coins[user.userId] + amount
  {
  }

  /** One verify request by the same caller on the same payment: the code sent and when. */
  datatype Try = Try(otp: string, at: Time)

  /** The store after the requests in `tries`, sent one after another in order. */
  function VerifyAll(t: Tables, caller: Caller, id: PaymentId, tries: seq<Try>, hash: Otp.Hasher): Tables
    decreases |tries|
  {
    if tries == [] then t
    else
      var last := tries[|tries| - 1];
      Verify(VerifyAll(t, caller, id, tries[..|tries| - 1], hash), caller, id, last.otp, last.at, hash).tables
  }

  /** The preconditions under which a verify reaches the code comparison and fails there. */
  predicate ReachesWrongCode(t: Tables, caller: Caller, id: PaymentId, otp: string, now: Time, hash: Otp.Hasher) {
    && otp != ""
    && Owns(t, caller.userId, id)
    && t.payments[id].status == Approved
    && !Expired(t.payments[id], now)
    && t.payments[id].otpUsedAt.None?
    && t.payments[id].otpCode != Some(hash(otp))
  }

  /** Every request in `tries` sends a wrong code before the code expires. */
  predicate AllWrong(t: Tables, caller: Caller, id: PaymentId, tries: seq<Try>, hash: Otp.Hasher) {
    forall i :: 0 <= i < |tries| ==> ReachesWrongCode(t, caller, id, tries[i].otp, tries[i].at, hash)
  }

  /**
   * Starting with no counter, k consecutive wrong codes (k up to 5, any codes,
   * any times before expiry) leave a counter of k stamped with the last
   * request's time; none of the first four locks, the fifth locks for 15
   * minutes from its own time. The payments and balances never change.
   */
  lemma {:induction false} RepeatedFailures(t: Tables, caller: Caller, id: PaymentId, tries: seq<Try>, hash: Otp.Hasher)
    requires AllWrong(t, caller, id, tries, hash) && id !in t.attempts
    requires 1 <= |tries| <= MaxFailures
    ensures var t' := VerifyAll(t, caller, id, tries, hash);
      var last := tries[|tries| - 1];
      && t'.payments == t.payments
      && t'.coins == t.coins
      && id in t'.attempts
      && t'.attempts[id].count == |tries|
      && t'.attempts[id].lastAttempt == last.at
      && t'.attempts[id].lockedUntil == if |tries| == MaxFailures then Some(last.at + LockoutMs) else None
    decreases |tries|
  {
    var front := tries[..|tries| - 1];
    var last := tries[|tries| - 1];
    var prev := VerifyAll(t, caller, id, front, hash);
    if |tries| > 1 {
      assert AllWrong(t, caller, id, front, hash) by {
        forall i | 0 <= i < |front|
          ensures ReachesWrongCode(t, caller, id, front[i].otp, front[i].at, hash)
        {
          assert front[i] == tries[i];
        }
      }
      RepeatedFailures(t, caller, id, front, hash);
    }
    assert ReachesWrongCode(t, caller, id, last.otp, last.at, hash);
    assert ReachesWrongCode(prev, caller, id, last.otp, last.at, hash) && !Locked(prev, id, last.at);
    VerifyFailureChangesOnlyAttempts(prev, caller, id, last.otp, last.at, hash);
    VerifyFailureCounter(prev, caller, id, last.otp, last.at, hash);
  }

  /**
   * After five wrong codes, any verify sent before 15 minutes have passed
   * since the fifth gets 429, whatever the code, the right one included, and
   * changes nothing.
   */
  lemma LockedAfterFiveFailures(t: Tables, caller: Caller, id: PaymentId, tries: seq<Try>, hash: Otp.Hasher,
                                code: string, later: Time)
    requires AllWrong(t, caller, id, tries, hash) && id !in t.attempts
    requires |tries| == MaxFailures
    requires code != "" && later < tries[MaxFailures - 1].at + LockoutMs
    ensures var locked := VerifyAll(t, caller, id, tries, hash);
      Verify(locked, caller, id, code, later, hash) == VerifyOutcome(locked, TooManyAttempts)
  {
    RepeatedFailures(t, caller, id, tries, hash);
  }

  /**
   * The counter is not reset when a lock runs out: once five failures are on
   * record, every further wrong code locks again at once.
   */
  lemma FailureAfterLockRelocks(t: Tables, caller: Caller, id: PaymentId, otp: string, now: Time, hash: Otp.Hasher)
    requires ReachesWrongCode(t, caller, id, otp, now, hash) && !Locked(t, id, now)
    requires id in t.attempts && t.attempts[id].count >= MaxFailures
    ensures var out := Verify(t, caller, id, otp, now, hash);
      out.reply == InvalidOtp && Locked(out.tables, id, now) && out.tables.attempts[id].lockedUntil == Some(now + LockoutMs)
  {
  }

  /**
   * Issuing a new code invalidates the previous one: after approve with one
   * code and regenerate with a different one, the first code gets "Invalid
   * OTP", given that distinct 6-digit codes have distinct digests.
   */
  lemma RegenerateInvalidatesPreviousCode(t: Tables, user: Caller, admin: Caller, id: PaymentId,
                                          notes: Option<string>, first: string, second: string, hash: Otp.Hasher,
                                          approved: Time, regenerated: Time, verified: Time, expiryMinutes: int)
    requires Otp.InjectiveOnCodes(hash, 6)
    requires Owns(t, user.userId, id) && IsAdmin(admin)
    requires Otp.IsCode(first, 6) && Otp.IsCode(second, 6) && first != second
    requires !Locked(t, id, verified)
    requires verified <= regenerated + expiryMinutes * MinuteMs
    ensures var ap := Approve(t, admin, id, notes, hash(first), approved, expiryMinutes);
      var rg := Regenerate(ap.tables, admin, id, hash(second), regenerated, expiryMinutes);
      rg.reply == Done(id) && Verify(rg.tables, user, id, first, verified, hash).reply == InvalidOtp
  {
    assert hash(first) != hash(second);
  }

  /**
   * Re-approving a completed payment alone does not let it be verified again:
   * `otp_used_at` survives the approve, so the newly issued code gets "OTP
   * already used".
   */
  lemma ReapprovedCompletedStaysUsed(t: Tables, user: Caller, admin: Caller, id: PaymentId, notes: Option<string>,
                                     code: string, hash: Otp.Hasher, approved: Time, verified: Time, expiryMinutes: int)
    requires Invariant(t)
    requires Owns(t, user.userId, id) && t.payments[id].status == Completed && IsAdmin(admin)
    requires code != "" && verified <= approved + expiryMinutes * MinuteMs
    ensures var ap := Approve(t, admin, id, notes, hash(code), approved, expiryMinutes);
      Verify(ap.tables, user, id, code, verified, hash) == VerifyOutcome(ap.tables, OtpAlreadyUsed)
  {
  }

  /**
   * The admin routes let a completed payment be credited again: approve it
   * (no status guard), regenerate (which clears `otp_used_at`), verify with
   * the new code. The owner's balance grows by the amount a second time.
   */
  lemma CompletedPaymentCreditedAgain(t: Tables, user: Caller, admin: Caller, id: PaymentId, notes: Option<string>,
                                      first: string, second: string, hash: Otp.Hasher,
                                      approved: Time, regenerated: Time, verified: Time, expiryMinutes: int)
    requires Invariant(t)
    requires Owns(t, user.userId, id) && t.payments[id].status == Completed && IsAdmin(admin)
    requires second != "" && verified <= regenerated + expiryMinutes * MinuteMs
    ensures var ap := Approve(t, admin, id, notes, hash(first), approved, expiryMinutes);
      var rg := Regenerate(ap.tables, admin, id, hash(second), regenerated, expiryMinutes);
      var ve := Verify(rg.tables, user, id, second, verified, hash);
      && ap.reply == Done(id) && rg.reply == Done(id)
      && ve.reply == Verified(t.payments[id].amount)
      && ve.tables.payments[id].status == Completed
      && ve.tables.coins[user.userId] == t.coins[user.userId] + t.payments[id].amount
  {
  }

  /**
   * End to end: one submission, credited twice. Submit, approve, verify;
   * then approve, regenerate, verify with the newest code. The balance has
   * grown by twice the amount.
   */
  lemma OneSubmissionCreditedTwice(t: Tables, user: Caller, admin: Caller, amount: Cents, proof: string,
                                   c1: string, c2: string, c3: string, hash: Otp.Hasher, now: Time, expiryMinutes: int)
    requires Invariant(t)
    requires user.userId in t.coins && IsAdmin(admin)
    requires amount != 0 && proof != "" && c1 != "" && c3 != "" && expiryMinutes >= 0
    ensures var up := Upload(t, user, amount, proof, now);
      up.reply.Created? &&
      var id := up.reply.paymentId;
      var a1 := Approve(up.tables, admin, id, None, hash(c1), now, expiryMinutes);
      var v1 := Verify(a1.tables, user, id, c1, now, hash);
      var a2 := Approve(v1.tables, admin, id, None, hash(c2), now, expiryMinutes);
      var rg := Regenerate(a2.tables, admin, id, hash(c3), now, expiryMinutes);
      var v2 := Verify(rg.tables, user, id, c3, now, hash);
      && v1.reply == Verified(amount)
      && v2.reply == Verified(amount)
      && v2.tables.coins[user.userId] == t.coins[user.userId] + 2 * amount
  {
    var up := Upload(t, user, amount, proof, now);
    var id := up.reply.paymentId;
    SuccessPath(t, user, admin, amount, proof, None, c1, hash, now, now, now, expiryMinutes);
    UploadPreservesInvariant(t, user, amount, proof, now);
    var a1 := Approve(up.tables, admin, id, None, hash(c1), now, expiryMinutes);
    ApprovePreservesInvariant(up.tables, admin, id, None, hash(c1), now, expiryMinutes);
    var v1 := Verify(a1.tables, user, id, c1, now, hash);
    VerifyPreservesInvariant(a1.tables, user, id, c1, now, hash);
    CompletedPaymentCreditedAgain(v1.tables, user, admin, id, None, c2, c3, hash, now, now, now, expiryMinutes);
  }
}
