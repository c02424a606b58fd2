/**
 * ntp_validate_timex (kernel/time/ntp.c): the side-effect-free check of an
 * adjtimex request. It reads only the request; the two inject-offset
 * predicates of the timekeeping core are parameters.
 */
module NtpValidate {
  import opened FixedPoint
  import opened NtpDefs

  /** The tick period lies within 10% of the nominal USER_HZ tick. */
  predicate TickInBand(tick: int)
  {
    900000 / USER_HZ <= tick <= 1100000 / USER_HZ
  }

  /** `freq * PPM_SCALE` fits a 64-bit `long long` (the bounds use C's truncating division). */
  predicate FreqScalable(freq: int)
  {
    CDiv(LLONG_MIN, PPM_SCALE) <= freq <= CDiv(LLONG_MAX, PPM_SCALE)
  }

  /** The C bound check is exactly the condition that `freq * PPM_SCALE` lies in [LLONG_MIN, LLONG_MAX]. */
  lemma FreqScalableExact(freq: int)
    ensures FreqScalable(freq) <==> LLONG_MIN <= freq * PPM_SCALE <= LLONG_MAX
  {
    var lo := CDiv(LLONG_MIN, PPM_SCALE);
    assert lo == -(Abs(LLONG_MIN) / PPM_SCALE);
    FloorDivCeiling(freq, LLONG_MAX, PPM_SCALE);
    FloorDivCeiling(-freq, Abs(LLONG_MIN), PPM_SCALE);
    assert (-freq) * PPM_SCALE == -(freq * PPM_SCALE);
  }

  /** A value is at most m / p (floor) exactly when its multiple by p is at most m. */
  lemma FloorDivCeiling(f: int, m: int, p: int)
    requires p >= 1
    ensures f <= m / p <==> f * p <= m
  {
    var q := m / p;
    FloorDivBounds(m, p);
    if f <= q {
      MulNonneg(q - f, p);
      assert q * p - f * p == (q - f) * p;
    } else {
      MulNonneg(f - q - 1, p);
      assert f * p - (q + 1) * p == (f - q - 1) * p;
    }
  }

  /**
   * The ADJ_SETOFFSET time can be injected: under ADJ_NANO the fraction is
   * nanoseconds and goes to timespec_inject_offset_valid, otherwise to
   * timeval_inject_offset_valid.
   */
  predicate InjectOffsetValid(txc: Timex, timespecValid: (int, int) -> bool, timevalValid: (int, int) -> bool)
  {
    if AdjNano in txc.modes then timespecValid(txc.time.sec, txc.time.usec)
    else timevalValid(txc.time.sec, txc.time.usec)
  }

  /** The request is an adjtime() read: ADJ_ADJTIME with both ADJ_OFFSET_SINGLESHOT and ADJ_OFFSET_READONLY. */
  predicate ReadonlyAdjtime(modes: set<AdjMode>)
  {
    AdjAdjtime in modes && AdjOffsetSingleshot in modes && AdjOffsetReadonly in modes
  }

  function ValidateTimex(txc: Timex, timespecValid: (int, int) -> bool, timevalValid: (int, int) -> bool): (r: Errno)
    // the adjtime() branch
    ensures AdjAdjtime in txc.modes && AdjOffsetSingleshot !in txc.modes ==> r == Einval
    ensures AdjAdjtime in txc.modes && AdjOffsetSingleshot in txc.modes && AdjOffsetReadonly !in txc.modes ==> r == Eperm
    // every other request that sets any mode bit is refused outright
    ensures AdjAdjtime !in txc.modes && txc.modes != {} ==> r == Eperm
    ensures txc.modes == {} ==> r == Success
    // so the permission error is exactly these cases
    ensures r == Eperm <==>
              (AdjAdjtime !in txc.modes && txc.modes != {}) ||
              (AdjAdjtime in txc.modes && AdjOffsetSingleshot in txc.modes && AdjOffsetReadonly !in txc.modes)
    // and a request passes exactly when it is empty or a read-only adjtime() whose time and frequency are usable
    ensures r == Success <==>
              txc.modes == {} ||
              (ReadonlyAdjtime(txc.modes) &&
               (AdjSetoffset in txc.modes ==> InjectOffsetValid(txc, timespecValid, timevalValid)) &&
               (AdjFrequency in txc.modes && BITS_PER_LONG == 64 ==> FreqScalable(txc.freq)))
  {
    var modes := txc.modes;
    var quartzOff := !TickInBand(txc.tick);
    if AdjAdjtime in modes then
      if AdjOffsetSingleshot !in modes then Einval
      else if AdjOffsetReadonly !in modes then Eperm
      else ValidateFields(txc, timespecValid, timevalValid)
    else if modes != {} then Eperm
    else if AdjTick in modes && quartzOff then Einval
    else ValidateFields(txc, timespecValid, timevalValid)
  }

  /** The ADJ_SETOFFSET and ADJ_FREQUENCY range checks that close ntp_validate_timex. */
  function ValidateFields(txc: Timex, timespecValid: (int, int) -> bool, timevalValid: (int, int) -> bool): (r: Errno)
    ensures r != Eperm
    ensures r == Success <==>
              (AdjSetoffset in txc.modes ==> InjectOffsetValid(txc, timespecValid, timevalValid)) &&
              (AdjFrequency in txc.modes && BITS_PER_LONG == 64 ==> FreqScalable(txc.freq))
  {
    if AdjSetoffset in txc.modes && !InjectOffsetValid(txc, timespecValid, timevalValid) then Einval
    else if AdjFrequency in txc.modes && BITS_PER_LONG == 64 && CDiv(LLONG_MIN, PPM_SCALE) > txc.freq then Einval
    else if AdjFrequency in txc.modes && BITS_PER_LONG == 64 && CDiv(LLONG_MAX, PPM_SCALE) < txc.freq then Einval
    else Success
  }

  /** The 10% tick-band check can never decide the outcome: the requested tick is irrelevant. */
  lemma TickBandUnreachable(txc: Timex, tick: int, timespecValid: (int, int) -> bool, timevalValid: (int, int) -> bool)
    ensures ValidateTimex(txc.(tick := tick), timespecValid, timevalValid) ==
            ValidateTimex(txc, timespecValid, timevalValid)
  {}
}
