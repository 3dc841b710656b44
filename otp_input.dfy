/**
 * The code-entry widget and its countdown
 * (frontend/src/components/OTPInput.tsx), without rendering: the slot state
 * and what one change does to it, and the integer arithmetic behind the
 * "m:ss" display. Focus moves, sounds and animation are not modelled.
 */
module OtpInput {
  import opened Wrappers
  import Otp

  /** Number of boxes when the `length` prop is not given. */
  const DefaultLength: nat := 6

  /** The test `/^\d*$/`: empty, or decimal digits only. */
  predicate IsDigitString(s: string) {
    forall i :: 0 <= i < |s| ==> Otp.IsDigit(s[i])
  }

  /** `every((digit) => digit !== '')`. */
  predicate AllFilled(slots: seq<string>) {
    forall i :: 0 <= i < |slots| ==> slots[i] != ""
  }

  /** `join('')`: the slots concatenated in order. */
  function Join(slots: seq<string>): string {
    if slots == [] then "" else slots[0] + Join(slots[1..])
  }

  /** Slots holding one digit each join to a code of that many digits, slot i giving digit i. */
  lemma {:induction false} JoinOfSingleDigits(slots: seq<string>)
    requires forall i :: 0 <= i < |slots| ==> |slots[i]| == 1 && Otp.IsDigit(slots[i][0])
    ensures Otp.IsCode(Join(slots), |slots|)
    ensures forall i :: 0 <= i < |slots| ==> Join(slots)[i] == slots[i][0]
  {
    if slots != [] {
      JoinOfSingleDigits(slots[1..]);
      assert Join(slots) == slots[0] + Join(slots[1..]);
    }
  }

  /** The widget's `otp` state: one string per box. */
  class Boxes {
    var slots: seq<string>

    /** `new Array(length).fill('')`. */
    constructor (length: nat := DefaultLength)
      ensures |slots| == length
      ensures forall i :: 0 <= i < |slots| ==> slots[i] == ""
    {
      slots := seq(length, _ => "");
    }

    /**
     * handleChange: a value that is not all digits is ignored. Otherwise the
     * state is replaced by a copy with slot `index` set to the value; when the
     * value is non-empty and every slot is then filled, `onComplete` receives
     * the joined code (`completed`).
     */
    method HandleChange(index: nat, value: string) returns (completed: Option<string>)
      requires index < |slots|
      modifies this
      ensures !IsDigitString(value) ==> slots == old(slots) && completed == None
      ensures IsDigitString(value) ==> |slots| == |old(slots)| && slots[index] == value
      ensures forall i :: 0 <= i < |slots| && i != index ==> slots[i] == old(slots)[i]
      ensures completed.Some? <==> IsDigitString(value) && value != "" && AllFilled(slots)
      ensures completed.Some? ==> completed.value == Join(slots)
    {
      if !IsDigitString(value) {
        return None;
      }
      var newOtp := slots;
      newOtp := newOtp[index := value];
      slots := newOtp;
      completed := None;
      if AllFilled(newOtp) && value != "" {
        completed := Some(Join(newOtp));
      }
    }
  }

  // ----- OTPCountdown -------------------------------------------------------

  /** The countdown's `remaining` (seconds) and `expired` state. */
  datatype Tick = Tick(remaining: nat, expired: bool)

  /** The state before the first tick of the interval. */
  const InitialTick: Tick := Tick(0, false)

  /**
   * One tick at `now` (ms): expired with nothing remaining once the expiry
   * time is reached, otherwise the whole seconds left, rounded down.
   */
  function OnTick(expireTime: int, now: int): (t: Tick)
    ensures t.expired <==> expireTime - now <= 0
    ensures t.expired ==> t.remaining == 0
    ensures !t.expired ==> t.remaining * 1000 <= expireTime - now < (t.remaining + 1) * 1000
  {
    var diff := expireTime - now;
    if diff <= 0 then Tick(0, true) else Tick(diff / 1000, false)
  }

  /** Any time left under a second shows zero seconds without being expired. */
  lemma ZeroRemainingNotExpired(expireTime: int, now: int)
    requires 0 < expireTime - now < 1000
    ensures OnTick(expireTime, now) == Tick(0, false)
  {
  }

  /** `Math.floor(remaining / 60)` and `remaining % 60`. */
  function Clock(remaining: nat): (ms: (nat, nat))
    ensures ms.0 * 60 + ms.1 == remaining
    ensures ms.1 < 60
  {
    (remaining / 60, remaining % 60)
  }

  function DigitChar(d: nat): char
    requires d < 10
  {
    Otp.Digits[d]
  }

  /** `Number.prototype.toString()` for a non-negative integer. */
  function ShowNat(n: nat): string {
    if n < 10 then [DigitChar(n)] else ShowNat(n / 10) + [DigitChar(n % 10)]
  }

  /** `padStart(2, '0')`. */
  function PadStart2(s: string): string {
    if |s| >= 2 then s else seq(2 - |s|, _ => '0') + s
  }

  /** The value of a decimal digit string (empty reads as 0). */
  function ParseNat(s: string): nat
    requires IsDigitString(s)
  {
    if s == [] then 0 else ParseNat(s[..|s| - 1]) * 10 + (s[|s| - 1] as int - '0' as int)
  }

  /** The decimal rendering is a non-empty digit string that reads back as the number. */
  lemma {:induction false} ShowNatRoundTrip(n: nat)
    ensures ShowNat(n) != "" && IsDigitString(ShowNat(n))
    ensures ParseNat(ShowNat(n)) == n
  {
    if n >= 10 {
      ShowNatRoundTrip(n / 10);
      var s := ShowNat(n);
      assert s[..|s| - 1] == ShowNat(n / 10);
    }
  }

  /** The seconds field: exactly two digits that read back as the seconds. */
  lemma SecondsFieldRoundTrip(seconds: nat)
    requires seconds < 60
    ensures var f := PadStart2(ShowNat(seconds));
      |f| == 2 && IsDigitString(f) && ParseNat(f) == seconds
  {
    ShowNatRoundTrip(seconds);
    var f := PadStart2(ShowNat(seconds));
    if seconds < 10 {
      assert f == ['0', DigitChar(seconds)];
      assert f[..1] == ['0'];
    } else {
      assert |ShowNat(seconds / 10)| == 1;
    }
  }

  const ExpiredLabel: string := "\U{23F0} OTP Expired"
  const RunningPrefix: string := "\U{23F1}\U{FE0F} "

  /** What the countdown renders. */
  function CountdownText(t: Tick): string {
    if t.expired then ExpiredLabel
    else
      var ms := Clock(t.remaining);
      RunningPrefix + ShowNat(ms.0) + ":" + PadStart2(ShowNat(ms.1))
  }

  /**
   * The running display reads back as the time left: it is the minutes, a
   * colon and two seconds digits, and minutes * 60 + seconds is `remaining`.
   */
  lemma CountdownTextReadsBack(remaining: nat)
    ensures var mm := ShowNat(remaining / 60);
      var ss := PadStart2(ShowNat(remaining % 60));
      && CountdownText(Tick(remaining, false)) == RunningPrefix + mm + ":" + ss
      && IsDigitString(mm) && IsDigitString(ss) && |ss| == 2
      && ParseNat(mm) * 60 + ParseNat(ss) == remaining
  {
    ShowNatRoundTrip(remaining / 60);
    SecondsFieldRoundTrip(remaining % 60);
  }
}
