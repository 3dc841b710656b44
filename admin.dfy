/**
 * The admin routes (backend/src/routes/admin.ts): list the open payments,
 * approve a payment and issue a code, issue a new code, reject a payment.
 * Every successful write appends one `admin_logs` entry.
 *
 * As in the user routes, each handler is a function over the store plus a
 * method that updates a `Database` passed to it, proved to match the
 * function. The admin middleware's role test comes first in every route.
 */
module AdminRoutes {
  import opened Wrappers
  import opened Store
  import Otp
  import Ordering

  const AdminRole: string := "admin"

  /** The admin middleware lets the request through. */
  predicate IsAdmin(caller: Caller) {
    caller.role == AdminRole
  }

  datatype AdminReply = Done(paymentId: PaymentId) | Forbidden | NotFound {
    /** The HTTP status of the reply. */
    function Code(): int {
      match this
      case Done(_) => 200
      case Forbidden => 403
      case NotFound => 404
    }
  }

  datatype AdminOutcome = AdminOutcome(tables: Tables, reply: AdminReply)

  /** `Date.now() + OTP_EXPIRY_MINUTES * 60000`. */
  function ExpiresAt(now: Time, expiryMinutes: int): Time {
    now + expiryMinutes * MinuteMs
  }

  // ----- GET /admin/payments ------------------------------------------------

  /** `WHERE p.status IN ('pending', 'approved')`, and the JOIN needs the owner's `users` row. */
  function Open(coins: map<UserId, Cents>): Payment -> bool {
    (p: Payment) => (p.status == Pending || p.status == Approved) && p.userId in coins
  }

  /** The open payments, newest first; None is the 403 reply. */
  function OpenPayments(t: Tables, caller: Caller): Option<seq<PaymentId>> {
    if !IsAdmin(caller) then None
    else Some(Ordering.SortNewest(t.payments, Ordering.Select(t.payments, t.nextId, Open(t.coins))))
  }

  /**
   * An admin gets exactly the pending and approved payments, each once,
   * ordered newest first; anyone else gets 403.
   */
  lemma OpenPaymentsSpec(t: Tables, caller: Caller)
    requires Invariant(t)
    ensures OpenPayments(t, caller).Some? <==> IsAdmin(caller)
    ensures OpenPayments(t, caller).Some? ==>
      var l := OpenPayments(t, caller).value;
      && Ordering.AllIn(t.payments, l)
      && Ordering.NewestFirst(t.payments, l)
      && forall id :: multiset(l)[id]
           == if id in t.payments && t.payments[id].status in {Pending, Approved} then 1 else 0
  {
    if IsAdmin(caller) {
      forall id
        ensures multiset(OpenPayments(t, caller).value)[id]
             == if id in t.payments && t.payments[id].status in {Pending, Approved} then 1 else 0
      {
        Ordering.SortedSelectCount(t.payments, t.nextId, Open(t.coins), id);
      }
    }
  }

  // ----- POST /admin/payments/:id/approve -----------------------------------

  /**
   * Approve: `UPDATE ... WHERE id = $4` with no status condition. Sets the
   * status, the digest, the expiry and the notes; leaves `otp_used_at` alone.
   */
  function Approve(t: Tables, caller: Caller, id: PaymentId, notes: Option<string>,
                   otpHash: string, now: Time, expiryMinutes: int): AdminOutcome {
    if !IsAdmin(caller) then AdminOutcome(t, Forbidden)
    else if id !in t.payments then AdminOutcome(t, NotFound)
    else
      var p := t.payments[id];
      var row := p.(status := Approved, otpCode := Some(otpHash),
                    otpExpiresAt := Some(ExpiresAt(now, expiryMinutes)), notes := notes, updatedAt := now);
      var entry := AdminLog(caller.userId, "approve_payment", id, NotesDetail(notes), now);
      AdminOutcome(t.(payments := t.payments[id := row], logs := t.logs + [entry]), Done(id))
  }

  /**
   * Approve succeeds on every existing payment whatever its status, completed
   * and rejected included; it writes the status, the new digest and expiry,
   * the notes and `updated_at`, keeps every other column (`otp_used_at`
   * among them), and logs once. An unknown id gives 404 and logs nothing.
   */
  lemma ApproveEffect(t: Tables, caller: Caller, id: PaymentId, notes: Option<string>,
                      otpHash: string, now: Time, expiryMinutes: int)
    requires IsAdmin(caller)
    ensures var out := Approve(t, caller, id, notes, otpHash, now, expiryMinutes);
      && (out.reply == Done(id) <==> id in t.payments)
      && (out.reply == NotFound <==> id !in t.payments)
      && (id !in t.payments ==> out.tables == t)
      && (id in t.payments ==>
            var p := t.payments[id];
            var q := out.tables.payments[id];
            && out.tables.payments == t.payments[id := p.(status := Approved, otpCode := Some(otpHash),
                 otpExpiresAt := Some(now + expiryMinutes * 60000), notes := notes, updatedAt := now)]
            && q.otpUsedAt == p.otpUsedAt
            && q.amount == p.amount && q.userId == p.userId
            && q.proofImage == p.proofImage && q.createdAt == p.createdAt
            && out.tables.logs == t.logs + [AdminLog(caller.userId, "approve_payment", id, NotesDetail(notes), now)]
            && out.tables.attempts == t.attempts
            && out.tables.coins == t.coins)
  {
  }

  /** In particular approve moves a completed or a rejected payment back to approved. */
  lemma ApproveReopensClosedPayments(t: Tables, caller: Caller, id: PaymentId, notes: Option<string>,
                                     otpHash: string, now: Time, expiryMinutes: int)
    requires IsAdmin(caller) && id in t.payments
    requires t.payments[id].status == Completed || t.payments[id].status == Rejected
    ensures var out := Approve(t, caller, id, notes, otpHash, now, expiryMinutes);
      out.reply.Done? && out.tables.payments[id].status == Approved
  {
  }

  lemma ApprovePreservesInvariant(t: Tables, caller: Caller, id: PaymentId, notes: Option<string>,
                                  otpHash: string, now: Time, expiryMinutes: int)
    requires Invariant(t)
    ensures Invariant(Approve(t, caller, id, notes, otpHash, now, expiryMinutes).tables)
  {
  }

  /**
   * The approve handler: generate a 6-digit code, hash it, compute the
   * expiry, UPDATE, and on a hit log the action. `issued` is the plaintext
   * code, which the route discards.
   */
  method ApprovePayment(db: Database, caller: Caller, id: PaymentId, notes: Option<string>, now: Time)
    returns (r: AdminReply, ghost issued: string)
    requires db.Valid()
    modifies db
    ensures db.Valid()
    ensures r != Forbidden ==> Otp.IsCode(issued, 6)
    ensures AdminOutcome(db.Snapshot(), r)
         == Approve(old(db.Snapshot()), caller, id, notes, Otp.HashOtp(db.hash, issued), now, db.expiryMinutes)
  {
    issued := "";
    if caller.role != AdminRole {
      return Forbidden, issued;
    }
    var otp := Otp.GenerateOtp(IssuedCodeLength);
    issued := otp;
    var otpHash := Otp.HashOtp(db.hash, otp);
    var expiresAt := now + db.expiryMinutes * MinuteMs;
    ApprovePreservesInvariant(db.Snapshot(), caller, id, notes, otpHash, now, db.expiryMinutes);

    if id !in db.payments {
      return NotFound, issued;
    }
    var p := db.payments[id];
    db.payments := db.payments[id := p.(status := Approved, otpCode := Some(otpHash),
                                        otpExpiresAt := Some(expiresAt), notes := notes, updatedAt := now)];
    db.logs := db.logs + [AdminLog(caller.userId, "approve_payment", id, NotesDetail(notes), now)];
    r := Done(id);
  }

  // ----- POST /admin/payments/:id/regenerate-otp ----------------------------

  /**
   * Regenerate: `UPDATE ... WHERE id = $3 AND status = 'approved'`. Writes a new
   * digest and expiry and clears `otp_used_at`.
   */
  function Regenerate(t: Tables, caller: Caller, id: PaymentId, otpHash: string,
                      now: Time, expiryMinutes: int): AdminOutcome {
    if !IsAdmin(caller) then AdminOutcome(t, Forbidden)
    else if id !in t.payments || t.payments[id].status != Approved then AdminOutcome(t, NotFound)
    else
      var p := t.payments[id];
      var row := p.(otpCode := Some(otpHash), otpExpiresAt := Some(ExpiresAt(now, expiryMinutes)),
                    otpUsedAt := None, updatedAt := now);
      var entry := AdminLog(caller.userId, "regenerate_otp", id, NoDetails, now);
      AdminOutcome(t.(payments := t.payments[id := row], logs := t.logs + [entry]), Done(id))
  }

  /**
   * Regenerate succeeds exactly on an approved payment: it replaces the digest
   * and expiry, clears `otp_used_at`, sets `updated_at`, keeps every other
   * column, and logs once. In every other case it gives 404 and changes nothing.
   */
  lemma RegenerateEffect(t: Tables, caller: Caller, id: PaymentId, otpHash: string,
                         now: Time, expiryMinutes: int)
    requires IsAdmin(caller)
    ensures var out := Regenerate(t, caller, id, otpHash, now, expiryMinutes);
      && (out.reply.Done? <==> id in t.payments && t.payments[id].status == Approved)
      && (!out.reply.Done? ==> out.reply == NotFound && out.tables == t)
      && (out.reply.Done? ==>
            var p := t.payments[id];
            var q := out.tables.payments[id];
            && out.tables.payments == t.payments[id := p.(otpCode := Some(otpHash),
                 otpExpiresAt := Some(now + expiryMinutes * 60000), otpUsedAt := None, updatedAt := now)]
            && q.status == Approved && q.notes == p.notes && q.amount == p.amount && q.userId == p.userId
            && q.proofImage == p.proofImage && q.createdAt == p.createdAt
            && out.tables.logs == t.logs + [AdminLog(caller.userId, "regenerate_otp", id, NoDetails, now)]
            && out.tables.attempts == t.attempts
            && out.tables.coins == t.coins)
  {
  }

  lemma RegeneratePreservesInvariant(t: Tables, caller: Caller, id: PaymentId, otpHash: string,
                                     now: Time, expiryMinutes: int)
    requires Invariant(t)
    ensures Invariant(Regenerate(t, caller, id, otpHash, now, expiryMinutes).tables)
  {
  }

  /** The regenerate handler: generate, hash, conditional UPDATE, log on a hit. */
  method RegenerateOtp(db: Database, caller: Caller, id: PaymentId, now: Time)
    returns (r: AdminReply, ghost issued: string)
    requires db.Valid()
    modifies db
    ensures db.Valid()
    ensures r != Forbidden ==> Otp.IsCode(issued, 6)
    ensures AdminOutcome(db.Snapshot(), r)
         == Regenerate(old(db.Snapshot()), caller, id, Otp.HashOtp(db.hash, issued), now, db.expiryMinutes)
  {
    issued := "";
    if caller.role != AdminRole {
      return Forbidden, issued;
    }
    var otp := Otp.GenerateOtp(IssuedCodeLength);
    issued := otp;
    var otpHash := Otp.HashOtp(db.hash, otp);
    var expiresAt := now + db.expiryMinutes * MinuteMs;
    RegeneratePreservesInvariant(db.Snapshot(), caller, id, otpHash, now, db.expiryMinutes);

    if id !in db.payments || db.payments[id].status != Approved {
      return NotFound, issued;
    }
    var p := db.payments[id];
    db.payments := db.payments[id := p.(otpCode := Some(otpHash), otpExpiresAt := Some(expiresAt),
                                        otpUsedAt := None, updatedAt := now)];
    db.logs := db.logs + [AdminLog(caller.userId, "regenerate_otp", id, NoDetails, now)];
    r := Done(id);
  }

  // ----- POST /admin/payments/:id/reject ------------------------------------

  /** Reject: `UPDATE ... WHERE id = $2 AND status IN ('pending', 'approved')`. */
  function Reject(t: Tables, caller: Caller, id: PaymentId, reason: Option<string>, now: Time): AdminOutcome {
    if !IsAdmin(caller) then AdminOutcome(t, Forbidden)
    else if id !in t.payments || !(t.payments[id].status == Pending || t.payments[id].status == Approved) then
      AdminOutcome(t, NotFound)
    else
      var p := t.payments[id];
      var row := p.(status := Rejected, notes := reason, updatedAt := now);
      var entry := AdminLog(caller.userId, "reject_payment", id, ReasonDetail(reason), now);
      AdminOutcome(t.(payments := t.payments[id := row], logs := t.logs + [entry]), Done(id))
  }

  /**
   * Reject succeeds exactly from pending or approved, setting the status and
   * the notes and logging once; from completed, from rejected or for an
   * unknown id it gives 404 and changes nothing.
   */
  lemma RejectEffect(t: Tables, caller: Caller, id: PaymentId, reason: Option<string>, now: Time)
    requires IsAdmin(caller)
    ensures var out := Reject(t, caller, id, reason, now);
      && (out.reply.Done? <==> id in t.payments && t.payments[id].status in {Pending, Approved})
      && (!out.reply.Done? ==> out.reply == NotFound && out.tables == t)
      && (out.reply.Done? ==>
            var p := t.payments[id];
            && out.tables.payments == t.payments[id := p.(status := Rejected, notes := reason, updatedAt := now)]
            && out.tables.logs == t.logs + [AdminLog(caller.userId, "reject_payment", id, ReasonDetail(reason), now)]
            && out.tables.attempts == t.attempts
            && out.tables.coins == t.coins)
  {
  }

  lemma RejectPreservesInvariant(t: Tables, caller: Caller, id: PaymentId, reason: Option<string>, now: Time)
    requires Invariant(t)
    ensures Invariant(Reject(t, caller, id, reason, now).tables)
  {
  }

  /** The reject handler: conditional UPDATE, log on a hit. */
  method RejectPayment(db: Database, caller: Caller, id: PaymentId, reason: Option<string>, now: Time)
    returns (r: AdminReply)
    requires db.Valid()
    modifies db
    ensures db.Valid()
    ensures AdminOutcome(db.Snapshot(), r) == Reject(old(db.Snapshot()), caller, id, reason, now)
  {
    RejectPreservesInvariant(db.Snapshot(), caller, id, reason, now);
    if caller.role != AdminRole {
      return Forbidden;
    }
    if id !in db.payments || !(db.payments[id].status == Pending || db.payments[id].status == Approved) {
      return NotFound;
    }
    var p := db.payments[id];
    db.payments := db.payments[id := p.(status := Rejected, notes := reason, updatedAt := now)];
    db.logs := db.logs + [AdminLog(caller.userId, "reject_payment", id, ReasonDetail(reason), now)];
    r := Done(id);
  }

  // ----- The audit log ------------------------------------------------------

  /** `after` is `before` with one entry for `action` on `id` by `admin` appended. */
  predicate AppendsOne(before: seq<AdminLog>, after: seq<AdminLog>, action: string, id: PaymentId, admin: UserId) {
    && |after| == |before| + 1
    && after[..|before|] == before
    && after[|before|].action == action
    && after[|before|].targetId == id
    && after[|before|].adminId == admin
  }

  /**
   * The log is append-only: a successful approve, regenerate or reject adds
   * exactly one entry naming its action, its admin and its payment, and every
   * other reply adds none.
   */
  lemma AdminLogAppendOnly(t: Tables, caller: Caller, id: PaymentId, notes: Option<string>,
                           otpHash: string, now: Time, expiryMinutes: int)
    ensures var a := Approve(t, caller, id, notes, otpHash, now, expiryMinutes);
      var g := Regenerate(t, caller, id, otpHash, now, expiryMinutes);
      var j := Reject(t, caller, id, notes, now);
      && (a.reply.Done? ==> AppendsOne(t.logs, a.tables.logs, "approve_payment", id, caller.userId))
      && (g.reply.Done? ==> AppendsOne(t.logs, g.tables.logs, "regenerate_otp", id, caller.userId))
      && (j.reply.Done? ==> AppendsOne(t.logs, j.tables.logs, "reject_payment", id, caller.userId))
      && (!a.reply.Done? ==> a.tables.logs == t.logs)
      && (!g.reply.Done? ==> g.tables.logs == t.logs)
      && (!j.reply.Done? ==> j.tables.logs == t.logs)
  {
  }
}
