/**
 * The user-facing payment routes (backend/src/routes/payments.ts): read one
 * payment, submit proof, verify the one-time code, read the balance, read
 * the history.
 *
 * Each handler is a function from the store before the request to the store
 * after it and the reply, and the handlers that write are also methods that
 * update a `Database` passed to them, proved to match their function. The
 * caller is the `{userId, role}` the authentication middleware attaches.
 */
module PaymentRoutes {
  import opened Wrappers
  import opened Store
  import Otp
  import Ordering

  /** The payment `id` exists and belongs to `userId` (`WHERE id = $1 AND user_id = $2`). */
  predicate Owns(t: Tables, userId: UserId, id: PaymentId) {
    id in t.payments && t.payments[id].userId == userId
  }

  // ----- GET /payments/:id --------------------------------------------------

  /** The columns the route selects: neither the digest nor the proof nor the notes. */
  datatype PaymentView = PaymentView(
    id: PaymentId,
    userId: UserId,
    amount: Cents,
    status: Status,
    otpExpiresAt: Option<Time>,
    createdAt: Time,
    updatedAt: Time)

  /** The payment as the owner sees it; None is the 404 reply. */
  function GetPayment(t: Tables, caller: Caller, id: PaymentId): Option<PaymentView> {
    if Owns(t, caller.userId, id) then
      var p := t.payments[id];
      Some(PaymentView(id, p.userId, p.amount, p.status, p.otpExpiresAt, p.createdAt, p.updatedAt))
    else
      None
  }

  /** The owner gets the row's public columns; everyone else gets 404. */
  lemma GetPaymentOwnerOnly(t: Tables, caller: Caller, id: PaymentId)
    ensures GetPayment(t, caller, id).Some? <==> id in t.payments && t.payments[id].userId == caller.userId
    ensures GetPayment(t, caller, id).Some? ==>
      var v := GetPayment(t, caller, id).value;
      v.id == id && v.amount == t.payments[id].amount && v.status == t.payments[id].status
  {
  }

  /** Another user's payment is reported exactly as if it did not exist. */
  lemma GetPaymentHidesOthers(t: Tables, caller: Caller, id: PaymentId)
    requires id in t.payments && t.payments[id].userId != caller.userId
    ensures GetPayment(t, caller, id) == GetPayment(t.(payments := t.payments - {id}), caller, id) == None
  {
  }

  // ----- POST /payments/upload ----------------------------------------------

  datatype UploadReply = Created(paymentId: PaymentId) | MissingFields | InsertFailed {
    /** The HTTP status of the reply. */
    function Code(): int {
      match this
      case Created(_) => 201
      case MissingFields => 400
      case InsertFailed => 500
    }
  }

  datatype UploadOutcome = UploadOutcome(tables: Tables, reply: UploadReply)

  /** The row the INSERT creates; every other column takes its default. */
  function NewPayment(userId: UserId, amount: Cents, proofImage: string, now: Time): Payment {
    Payment(userId, amount, proofImage, Pending, None, None, None, None, now, now)
  }

  /**
   * Submit proof. Only falsiness is checked: a zero amount or an empty proof
   * is refused, a negative amount is not. A caller without a `users` row
   * breaks the foreign key and the INSERT fails.
   */
  function Upload(t: Tables, caller: Caller, amount: Cents, proofImage: string, now: Time): UploadOutcome {
    if amount == 0 || proofImage == "" then
      UploadOutcome(t, MissingFields)
    else if caller.userId !in t.coins then
      UploadOutcome(t, InsertFailed)
    else
      var id := t.nextId;
      UploadOutcome(
        t.(payments := t.payments[id := NewPayment(caller.userId, amount, proofImage, now)], nextId := id + 1),
        Created(id))
  }

  /**
   * A falsy field gives 400 and no change; otherwise exactly one new pending row
   * owned by the caller appears, under an identifier no row had, and nothing
   * else changes.
   */
  lemma UploadEffect(t: Tables, caller: Caller, amount: Cents, proofImage: string, now: Time)
    requires Invariant(t)
    ensures var out := Upload(t, caller, amount, proofImage, now);
      && (out.reply == MissingFields <==> amount == 0 || proofImage == "")
      && (out.reply == InsertFailed <==> amount != 0 && proofImage != "" && caller.userId !in t.coins)
      && (!out.reply.Created? ==> out.tables == t)
      && (out.reply.Created? ==>
            var id := out.reply.paymentId;
            && id !in t.payments
            && out.tables.payments.Keys == t.payments.Keys + {id}
            && (forall other :: other in t.payments ==> out.tables.payments[other] == t.payments[other])
            && out.tables.payments[id].userId == caller.userId
            && out.tables.payments[id].amount == amount
            && out.tables.payments[id].status == Pending
            && out.tables.payments[id].otpCode.None?
            && out.tables.attempts == t.attempts
            && out.tables.coins == t.coins
            && out.tables.logs == t.logs)
  {
  }

  /** Every negative amount passes the falsiness check and is stored as given. */
  lemma UploadAcceptsNegativeAmount(t: Tables, caller: Caller, amount: Cents, proofImage: string, now: Time)
    requires amount < 0
    requires proofImage != "" && caller.userId in t.coins
    ensures var out := Upload(t, caller, amount, proofImage, now);
      && out.reply.Created?
      && out.reply.paymentId in out.tables.payments
      && out.tables.payments[out.reply.paymentId].amount == amount
      && out.tables.payments[out.reply.paymentId].status == Pending
  {
  }

  lemma UploadPreservesInvariant(t: Tables, caller: Caller, amount: Cents, proofImage: string, now: Time)
    requires Invariant(t)
    ensures Invariant(Upload(t, caller, amount, proofImage, now).tables)
  {
  }

  /** The upload handler: validate, INSERT ... RETURNING id. */
  method UploadProof(db: Database, caller: Caller, amount: Cents, proofImage: string, now: Time)
    returns (r: UploadReply)
    requires db.Valid()
    modifies db
    ensures db.Valid()
    ensures UploadOutcome(db.Snapshot(), r) == Upload(old(db.Snapshot()), caller, amount, proofImage, now)
  {
    UploadPreservesInvariant(db.Snapshot(), caller, amount, proofImage, now);
    if amount == 0 || proofImage == "" {
      return MissingFields;
    }
    if caller.userId !in db.coins {
      return InsertFailed;
    }
    var id := db.nextId;
    db.payments := db.payments[id := NewPayment(caller.userId, amount, proofImage, now)];
    db.nextId := id + 1;
    r := Created(id);
  }

  // ----- POST /payments/:id/verify-otp --------------------------------------

  datatype VerifyReply =
    | Verified(coinsAdded: Cents)
    | OtpRequired
    | NotFound
    | TooManyAttempts
    | NotApproved
    | OtpExpired
    | OtpAlreadyUsed
    | InvalidOtp
  {
    /** The HTTP status of the reply. */
    function Code(): int {
      match this
      case Verified(_) => 200
      case NotFound => 404
      case TooManyAttempts => 429
      case _ => 400
    }
  }

  datatype VerifyOutcome = VerifyOutcome(tables: Tables, reply: VerifyReply)

  /** The payment's attempt row holds a lock that has not yet run out. */
  predicate Locked(t: Tables, id: PaymentId, now: Time) {
    id in t.attempts && t.attempts[id].lockedUntil.Some? && t.attempts[id].lockedUntil.value > now
  }

  /** `new Date() > new Date(otp_expires_at)`, where a NULL expiry reads as the epoch. */
  predicate Expired(p: Payment, now: Time) {
    now > p.otpExpiresAt.GetOr(0)
  }

  /**
   * A wrong code: the first failure inserts a counter of 1 with no lock; a later
   * one raises the counter and locks for 15 minutes once it reaches 5.
   */
  function RecordFailure(t: Tables, userId: UserId, id: PaymentId, now: Time): Tables {
    if id in t.attempts then
      var a := t.attempts[id];
      var n := a.count + 1;
      var lock := if n >= MaxFailures then Some(now + LockoutMs) else None;
      t.(attempts := t.attempts[id := a.(count := n, lastAttempt := now, lockedUntil := lock)])
    else
      t.(attempts := t.attempts[id := Attempt(userId, 1, now, None)])
  }

  /** `UPDATE users SET coins = coins + amount WHERE id = userId`. */
  function Credit(coins: map<UserId, Cents>, userId: UserId, amount: Cents): map<UserId, Cents> {
    if userId in coins then coins[userId := coins[userId] + amount] else coins
  }

  /** A right code: complete the payment, credit the caller, delete the counter. */
  function Complete(t: Tables, userId: UserId, id: PaymentId, now: Time): Tables
    requires id in t.payments
  {
    var p := t.payments[id];
    t.(payments := t.payments[id := p.(status := Completed, otpUsedAt := Some(now), updatedAt := now)],
       coins := Credit(t.coins, userId, p.amount),
       attempts := t.attempts - {id})
  }

  /** The verify-otp handler, its checks in the order the route makes them. */
  function Verify(t: Tables, caller: Caller, id: PaymentId, otp: string, now: Time, hash: Otp.Hasher): VerifyOutcome {
    if otp == "" then VerifyOutcome(t, OtpRequired)
    else if !Owns(t, caller.userId, id) then VerifyOutcome(t, NotFound)
    else if Locked(t, id, now) then VerifyOutcome(t, TooManyAttempts)
    else
      var p := t.payments[id];
      if p.status != Approved then VerifyOutcome(t, NotApproved)
      else if Expired(p, now) then VerifyOutcome(t, OtpExpired)
      else if p.otpUsedAt.Some? then VerifyOutcome(t, OtpAlreadyUsed)
      else if Some(Otp.HashOtp(hash, otp)) != p.otpCode then
        VerifyOutcome(RecordFailure(t, caller.userId, id, now), InvalidOtp)
      else
        VerifyOutcome(Complete(t, caller.userId, id, now), Verified(p.amount))
  }

  /**
   * The checks run in a fixed order and the first that fails alone decides the
   * reply: each reply holds exactly when every earlier check passed and its
   * own failed.
   */
  lemma VerifyCheckOrder(t: Tables, caller: Caller, id: PaymentId, otp: string, now: Time, hash: Otp.Hasher)
    ensures var r := Verify(t, caller, id, otp, now, hash).reply;
      var owned := Owns(t, caller.userId, id);
      var p := if owned then t.payments[id] else NewPayment(caller.userId, 0, "", 0);
      && (r == OtpRequired <==> otp == "")
      && (r == NotFound <==> otp != "" && !owned)
      && (r == TooManyAttempts <==> otp != "" && owned && Locked(t, id, now))
      && (r == NotApproved <==> otp != "" && owned && !Locked(t, id, now) && p.status != Approved)
      && (r == OtpExpired <==> otp != "" && owned && !Locked(t, id, now) && p.status == Approved
                               && Expired(p, now))
      && (r == OtpAlreadyUsed <==> otp != "" && owned && !Locked(t, id, now) && p.status == Approved
                                   && !Expired(p, now) && p.otpUsedAt.Some?)
      && (r == InvalidOtp <==> otp != "" && owned && !Locked(t, id, now) && p.status == Approved
                               && !Expired(p, now) && p.otpUsedAt.None? && p.otpCode != Some(hash(otp)))
      && (r.Verified? <==> otp != "" && owned && !Locked(t, id, now) && p.status == Approved
                           && !Expired(p, now) && p.otpUsedAt.None? && p.otpCode == Some(hash(otp)))
  {
  }

  /** The expiry check is strict: a code used at the very instant it expires is accepted. */
  lemma VerifyAtExpiryInstant(t: Tables, caller: Caller, id: PaymentId, otp: string, hash: Otp.Hasher)
    requires otp != "" && Owns(t, caller.userId, id)
    requires t.payments[id].status == Approved && t.payments[id].otpExpiresAt.Some?
    requires t.payments[id].otpUsedAt.None? && t.payments[id].otpCode == Some(hash(otp))
    requires !Locked(t, id, t.payments[id].otpExpiresAt.value)
    ensures Verify(t, caller, id, otp, t.payments[id].otpExpiresAt.value, hash).reply
         == Verified(t.payments[id].amount)
  {
  }

  /** Another user's payment is answered exactly as a missing one, with no change. */
  lemma VerifyHidesOthers(t: Tables, caller: Caller, id: PaymentId, otp: string, now: Time, hash: Otp.Hasher)
    requires otp != "" && id in t.payments && t.payments[id].userId != caller.userId
    ensures var hidden := t.(payments := t.payments - {id});
      && Verify(t, caller, id, otp, now, hash) == VerifyOutcome(t, NotFound)
      && Verify(hidden, caller, id, otp, now, hash) == VerifyOutcome(hidden, NotFound)
  {
  }

  /**
   * Every failure leaves the payments, the balances and the log as they were;
   * only a wrong code touches the attempt table, and only the payment's own row.
   */
  lemma VerifyFailureChangesOnlyAttempts(t: Tables, caller: Caller, id: PaymentId, otp: string, now: Time, hash: Otp.Hasher)
    ensures var out := Verify(t, caller, id, otp, now, hash);
      !out.reply.Verified? ==>
        && out.tables.payments == t.payments
        && out.tables.coins == t.coins
        && out.tables.logs == t.logs
        && out.tables.nextId == t.nextId
        && (out.reply != InvalidOtp ==> out.tables.attempts == t.attempts)
        && (forall other :: other != id ==>
              (other in out.tables.attempts <==> other in t.attempts)
              && (other in t.attempts ==> out.tables.attempts[other] == t.attempts[other]))
  {
  }

  /**
   * The counter after a wrong code: 1 and no lock on the first failure; the
   * previous count plus one afterwards, locked for 15 minutes from the fifth on.
   */
  lemma VerifyFailureCounter(t: Tables, caller: Caller, id: PaymentId, otp: string, now: Time, hash: Otp.Hasher)
    requires Verify(t, caller, id, otp, now, hash).reply == InvalidOtp
    ensures var a := Verify(t, caller, id, otp, now, hash).tables.attempts;
      && id in a
      && a[id].lastAttempt == now
      && (id !in t.attempts ==> a[id].count == 1 && a[id].lockedUntil.None? && a[id].userId == caller.userId)
      && (id in t.attempts ==>
            && a[id].count == t.attempts[id].count + 1
            && a[id].userId == t.attempts[id].userId
            && (a[id].lockedUntil.Some? <==> a[id].count >= MaxFailures)
            && (a[id].lockedUntil.Some? ==> a[id].lockedUntil.value == now + 15 * MinuteMs))
  {
  }

  /**
   * A right code completes the payment at `now`, adds exactly its amount to the
   * owner's balance, deletes its counter, reports that amount, and changes no
   * other payment, balance or log entry.
   */
  lemma VerifySuccessEffect(t: Tables, caller: Caller, id: PaymentId, otp: string, now: Time, hash: Otp.Hasher)
    requires Invariant(t)
    requires Verify(t, caller, id, otp, now, hash).reply.Verified?
    ensures var out := Verify(t, caller, id, otp, now, hash);
      var p := t.payments[id];
      && p.userId == caller.userId
      && out.reply.coinsAdded == p.amount
      && out.tables.payments == t.payments[id := p.(status := Completed, otpUsedAt := Some(now), updatedAt := now)]
      && out.tables.coins == t.coins[caller.userId := t.coins[caller.userId] + p.amount]
      && out.tables.attempts == t.attempts - {id}
      && out.tables.logs == t.logs
  {
  }

  /**
   * Once completed, a payment answers every further verify, whatever the code,
   * and nothing changes: its owner gets the status error, anyone else 404.
   */
  lemma VerifyAfterSuccessFails(t: Tables, caller: Caller, id: PaymentId, otp: string, now: Time,
                                any: Caller, again: string, later: Time, hash: Otp.Hasher)
    requires Invariant(t)
    requires Verify(t, caller, id, otp, now, hash).reply.Verified?
    requires again != ""
    ensures var t' := Verify(t, caller, id, otp, now, hash).tables;
      var r := Verify(t', any, id, again, later, hash);
      r.tables == t' && (r.reply == NotApproved || r.reply == NotFound)
      && (any.userId == caller.userId ==> r.reply == NotApproved)
      && (any.userId != caller.userId ==> r.reply == VerifyReply.NotFound)
  {
    VerifySuccessEffect(t, caller, id, otp, now, hash);
  }

  lemma VerifyPreservesInvariant(t: Tables, caller: Caller, id: PaymentId, otp: string, now: Time, hash: Otp.Hasher)
    requires Invariant(t)
    ensures Invariant(Verify(t, caller, id, otp, now, hash).tables)
  {
  }

  /**
   * The verify-otp handler: read the owned row, read the counter (keeping its
   * count in a local), run the checks, then either bump the counter or
   * complete, credit and clear.
   */
  method VerifyOtp(db: Database, caller: Caller, id: PaymentId, otp: string, now: Time)
    returns (r: VerifyReply)
    requires db.Valid()
    modifies db
    ensures db.Valid()
    ensures VerifyOutcome(db.Snapshot(), r) == Verify(old(db.Snapshot()), caller, id, otp, now, db.hash)
  {
    VerifyPreservesInvariant(db.Snapshot(), caller, id, otp, now, db.hash);
    if otp == "" {
      return OtpRequired;
    }
    if id !in db.payments || db.payments[id].userId != caller.userId {
      return NotFound;
    }
    var payment := db.payments[id];

    var attempts := 0;
    if id in db.attempts {
      attempts := db.attempts[id].count;
      var lock := db.attempts[id].lockedUntil;
      if lock.Some? && lock.value > now {
        return TooManyAttempts;
      }
    }

    if payment.status != Approved {
      return NotApproved;
    }
    if now > payment.otpExpiresAt.GetOr(0) {
      return OtpExpired;
    }
    if payment.otpUsedAt.Some? {
      return OtpAlreadyUsed;
    }

    var otpHash := Otp.HashOtp(db.hash, otp);
    if Some(otpHash) != payment.otpCode {
      if id in db.attempts {
        var newAttempts := attempts + 1;
        var lockedUntil := if newAttempts >= MaxFailures then Some(now + LockoutMs) else None;
        db.attempts := db.attempts[id := db.attempts[id].(count := newAttempts, lastAttempt := now, lockedUntil := lockedUntil)];
      } else {
        db.attempts := db.attempts[id := Attempt(caller.userId, 1, now, None)];
      }
      return InvalidOtp;
    }

    db.payments := db.payments[id := payment.(status := Completed, otpUsedAt := Some(now), updatedAt := now)];
    if caller.userId in db.coins {
      db.coins := db.coins[caller.userId := db.coins[caller.userId] + payment.amount];
    }
    db.attempts := db.attempts - {id};
    r := Verified(payment.amount);
  }

  // ----- GET /balance -------------------------------------------------------

  /** The caller's coins; None is the 404 reply for a caller without a `users` row. */
  function Balance(t: Tables, caller: Caller): Option<Cents> {
    if caller.userId in t.coins then Some(t.coins[caller.userId]) else None
  }

  /** A successful verify raises the caller's balance by exactly the reported amount. */
  lemma BalanceAfterVerify(t: Tables, caller: Caller, id: PaymentId, otp: string, now: Time, hash: Otp.Hasher)
    requires Invariant(t)
    requires Verify(t, caller, id, otp, now, hash).reply.Verified?
    ensures var out := Verify(t, caller, id, otp, now, hash);
      Balance(t, caller).Some? && Balance(out.tables, caller).Some?
      && Balance(out.tables, caller).value == Balance(t, caller).value + out.reply.coinsAdded
  {
    VerifySuccessEffect(t, caller, id, otp, now, hash);
  }

  /** A verify that does not succeed changes nobody's balance. */
  lemma BalanceAfterFailedVerify(t: Tables, caller: Caller, id: PaymentId, otp: string, now: Time,
                                 hash: Otp.Hasher, anyone: Caller)
    requires !Verify(t, caller, id, otp, now, hash).reply.Verified?
    ensures Balance(Verify(t, caller, id, otp, now, hash).tables, anyone) == Balance(t, anyone)
  {
    VerifyFailureChangesOnlyAttempts(t, caller, id, otp, now, hash);
  }

  // ----- GET /history -------------------------------------------------------

  const HistoryLimit: nat := 20

  /** The history filter `user_id = $1`. */
  function OwnedBy(userId: UserId): Payment -> bool {
    (p: Payment) => p.userId == userId
  }

  /** `WHERE user_id = $1 ORDER BY created_at DESC LIMIT 20`. */
  function History(t: Tables, caller: Caller): seq<PaymentId> {
    Ordering.Top(t.payments, t.nextId, OwnedBy(caller.userId), HistoryLimit)
  }

  /**
   * The history holds only the caller's payments, each at most once, newest
   * first; it has min(20, their number) entries, all of them when there are at
   * most 20, and every payment of theirs that is left out is no newer than
   * every one that is listed.
   */
  lemma HistorySpec(t: Tables, caller: Caller)
    requires Invariant(t)
    ensures var h := History(t, caller);
      var all := Ordering.Select(t.payments, t.nextId, OwnedBy(caller.userId));
      && Ordering.AllIn(t.payments, h)
      && Ordering.NewestFirst(t.payments, h)
      && (forall id :: multiset(h)[id] <= if Owns(t, caller.userId, id) then 1 else 0)
      && |h| == (if |all| < HistoryLimit then |all| else HistoryLimit)
      && (forall id :: Owns(t, caller.userId, id) && |all| <= HistoryLimit ==> id in h)
      && (forall id, i :: Owns(t, caller.userId, id) && id !in h && 0 <= i < |h| ==>
            t.payments[id].createdAt <= t.payments[h[i]].createdAt)
  {
    var keep := OwnedBy(caller.userId);
    Ordering.TopOrdered(t.payments, t.nextId, keep, HistoryLimit);
    forall id
      ensures multiset(History(t, caller))[id] <= if Owns(t, caller.userId, id) then 1 else 0
    {
      Ordering.TopMembers(t.payments, t.nextId, keep, HistoryLimit, id);
    }
    forall id | Owns(t, caller.userId, id)
      ensures |Ordering.Select(t.payments, t.nextId, keep)| <= HistoryLimit ==> id in History(t, caller)
      ensures id !in History(t, caller) ==> forall i :: 0 <= i < |History(t, caller)| ==>
                t.payments[id].createdAt <= t.payments[History(t, caller)[i]].createdAt
    {
      Ordering.TopNewest(t.payments, t.nextId, keep, HistoryLimit, id);
    }
  }
}
