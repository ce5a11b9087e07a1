/** A completion as `reap` hands it out, and what its raw 64-bit value means to the awaiter of
    the operation. */
module Results {
  import opened Words

  datatype TorusResult = TorusResult(value: int, userData: u64)

  /** What an operation returns to its awaiter: the transferred byte count, the operating
      system's error, or the backend's refusal to accept the flow. */
  datatype IoResult = Ok(bytes: int) | Os(errno: int) | Refused(error: int)

  /** What `submit` reports when it fails, and whether the backend has published the flow all the
      same. */
  datatype Refusal = Refusal(error: int, left: bool)

  /** `x as i32`. */
  function AsI32(x: int): int {
    var m := x % U32;
    if m < 0x8000_0000 then m else m - U32
  }

  /** `result.bytes()` of a successful completion, `result.error()` of a failed one. */
  function IoOutcome(raw: int): IoResult {
    if raw >= 0 then Ok(raw) else Os(AsI32(-raw))
  }

  /** What an awaiter is told about a raw value: a success carries the value itself, a failure the
      32-bit number that agrees with the negated value modulo 2^32, so the number itself whenever
      it fits. */
  lemma OutcomeIsExact(raw: int)
    ensures raw >= 0 ==> IoOutcome(raw) == Ok(raw)
    ensures -0x8000_0000 < raw < 0 ==> IoOutcome(raw) == Os(-raw)
    ensures raw < 0 ==> IoOutcome(raw).Os? && -0x8000_0000 <= IoOutcome(raw).errno < 0x8000_0000
                        && (IoOutcome(raw).errno + raw) % U32 == 0
  {
  }

  /** The 64-bit outcome is narrowed to a 32-bit error number; the number survives exactly
      when it is one a 32-bit `errno` can hold. */
  lemma ErrnoSurvives(raw: int)
    requires -0x8000_0000_0000_0000 <= raw < 0
    ensures IoOutcome(raw) == Os(-raw) <==> -raw <= 0x7fff_ffff
  {
    if -raw > 0x7fff_ffff {
      assert AsI32(-raw) <= 0x7fff_ffff;
    }
  }
}
