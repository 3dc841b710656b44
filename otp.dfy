/**
 * One-time codes: generation of a decimal code and comparison of digests
 * (backend/src/utils/otp.ts).
 *
 * The digest is SHA-256 (section 6.2 of FIPS 180-4) rendered as lower-case
 * hex. Its internals are not modelled: a digest function is any total,
 * hence deterministic, function from strings to strings, passed in by the
 * caller. The random draw of crypto.randomInt is an arbitrary choice.
 */
module Otp {

  /** The alphabet that the generator indexes. */
  const Digits: string := "0123456789"

  /** Length used when the generator is called without an argument. */
  const DefaultLength: int := 6

  /** The (uninterpreted) digest function standing for SHA-256 in hex. */
  type Hasher = string -> string

  predicate IsDigit(c: char) {
    '0' <= c <= '9'
  }

  /** `s` is a code of exactly `n` decimal digits. */
  predicate IsCode(s: string, n: nat) {
    |s| == n && forall i :: 0 <= i < |s| ==> IsDigit(s[i])
  }

  /** Every character of the alphabet is a decimal digit, and there are ten of them. */
  lemma DigitsAreDigits()
    ensures IsCode(Digits, 10)
  {
  }

  /**
   * generateOTP: appends `length` characters, each drawn from `Digits` by an
   * index in [0, 10). A non-positive length runs the loop zero times.
   */
  method GenerateOtp(length: int := DefaultLength) returns (otp: string)
    ensures IsCode(otp, if length < 0 then 0 else length)
  {
    otp := "";
    var i := 0;
    while i < length
      invariant 0 <= i <= if length < 0 then 0 else length
      invariant IsCode(otp, i)
    {
      var draw :| 0 <= draw < |Digits|;
      otp := otp + [Digits[draw]];
      i := i + 1;
    }
  }

  /** hashOTP: the stored digest of a code. */
  function HashOtp(hash: Hasher, otp: string): string {
    hash(otp)
  }

  /**
   * verifyOTP: recomputes the digest of the input and compares it with the
   * stored one.
   */
  function VerifyOtp(hash: Hasher, input: string, hashed: string): (ok: bool)
    ensures ok <==> HashOtp(hash, input) == hashed
  {
    hash(input) == hashed
  }

  /** Round trip: a code always verifies against its own digest. */
  lemma VerifyRoundTrip(hash: Hasher, otp: string)
    ensures VerifyOtp(hash, otp, HashOtp(hash, otp))
  {
  }

  /** The digest is deterministic: equal codes give equal digests. */
  lemma HashDeterministic(hash: Hasher, a: string, b: string)
    requires a == b
    ensures HashOtp(hash, a) == HashOtp(hash, b)
  {
  }

  /**
   * Distinct codes of `n` digits have distinct digests. No function into
   * fixed-length strings is injective on all strings, so this is assumed only
   * on the finitely many codes of one length, and only where it is stated.
   */
  ghost predicate InjectiveOnCodes(hash: Hasher, n: nat) {
    forall a, b :: IsCode(a, n) && IsCode(b, n) && hash(a) == hash(b) ==> a == b
  }

  /** When digests of distinct 6-digit codes differ, another such code never verifies against a code's digest. */
  lemma VerifyRejectsOtherCodes(hash: Hasher, otp: string, other: string)
    requires InjectiveOnCodes(hash, 6)
    requires IsCode(otp, 6) && IsCode(other, 6) && other != otp
    ensures !VerifyOtp(hash, other, HashOtp(hash, otp))
  {
  }
}
