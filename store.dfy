/**
 * The relational store the payment routes run over: the `manual_payments`,
 * `otp_attempts` and `admin_logs` tables and the `coins` column of `users`
 * (columns as declared in backend/src/db/migrate.ts).
 *
 * Timestamps are integer milliseconds; DECIMAL(10,2) amounts are integer
 * cents. Row identifiers (UUIDs generated by the database) are drawn from a
 * counter, which gives every new row an identifier no row had before.
 */
module Store {
  import opened Wrappers
  import opened Otp

  type UserId = int
  type PaymentId = nat
  type Time = int
  type Cents = int

  const MinuteMs: int := 60000

  /** OTP_EXPIRY_MINUTES when the environment does not set it. */
  const DefaultExpiryMinutes: int := 15

  /** Failed verifications after which a payment is locked. */
  const MaxFailures: int := 5

  /** Length of a lockout. */
  const LockoutMs: int := 15 * MinuteMs

  /** Length of the codes the admin routes issue. */
  const IssuedCodeLength: int := 6

  datatype Status = Pending | Approved | Completed | Rejected

  /** One `manual_payments` row. */
  datatype Payment = Payment(
    userId: UserId,
    amount: Cents,
    proofImage: string,
    status: Status,
    otpCode: Option<string>,
    otpExpiresAt: Option<Time>,
    otpUsedAt: Option<Time>,
    notes: Option<string>,
    createdAt: Time,
    updatedAt: Time)

  /** One `otp_attempts` row, keyed by its payment. */
  datatype Attempt = Attempt(
    userId: UserId,
    count: int,
    lastAttempt: Time,
    lockedUntil: Option<Time>)

  /** The JSON `details` column of an admin log entry. */
  datatype Details = NoDetails | NotesDetail(notes: Option<string>) | ReasonDetail(reason: Option<string>)

  /** One `admin_logs` row. */
  datatype AdminLog = AdminLog(
    adminId: UserId,
    action: string,
    targetId: PaymentId,
    details: Details,
    createdAt: Time)

  /** The identity the authentication middleware attaches to a request. */
  datatype Caller = Caller(userId: UserId, role: string)

  /** A snapshot of the whole store. `coins` holds one entry per `users` row. */
  datatype Tables = Tables(
    payments: map<PaymentId, Payment>,
    attempts: map<PaymentId, Attempt>,
    coins: map<UserId, Cents>,
    logs: seq<AdminLog>,
    nextId: PaymentId)

  /**
   * What the schema and the routes keep true of the store: identifiers below
   * the counter, the two foreign keys, an approved payment has a digest and an
   * expiry, and a completed payment has been used and has no attempt row.
   */
  ghost predicate Invariant(t: Tables) {
    && (forall id :: id in t.payments ==> id < t.nextId)
    && (forall id :: id in t.payments ==> t.payments[id].userId in t.coins)
    && (forall id :: id in t.attempts ==> id in t.payments)
    && (forall id :: id in t.payments && t.payments[id].status == Approved ==>
          t.payments[id].otpCode.Some? && t.payments[id].otpExpiresAt.Some?)
    && (forall id :: id in t.payments && t.payments[id].status == Completed ==>
          id !in t.attempts && t.payments[id].otpUsedAt.Some?)
  }

  /** The database the handlers share, with the digest and the configured expiry. */
  class Database {
    var payments: map<PaymentId, Payment>
    var attempts: map<PaymentId, Attempt>
    var coins: map<UserId, Cents>
    var logs: seq<AdminLog>
    var nextId: PaymentId
    const hash: Hasher
    const expiryMinutes: int

    function Snapshot(): Tables
      reads this
    {
      Tables(payments, attempts, coins, logs, nextId)
    }

    ghost predicate Valid()
      reads this
    {
      Invariant(Snapshot())
    }

    /** A freshly migrated store holding the given users and no payments. */
    constructor (users: map<UserId, Cents>, hash: Hasher, expiryMinutes: int := DefaultExpiryMinutes)
      ensures Valid()
      ensures Snapshot() == Tables(map[], map[], users, [], 0)
      ensures this.hash == hash && this.expiryMinutes == expiryMinutes
    {
      payments, attempts, coins, logs, nextId := map[], map[], users, [], 0;
      this.hash := hash;
      this.expiryMinutes := expiryMinutes;
    }
  }
}
