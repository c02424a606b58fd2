/**
 * The arithmetic of the NTP clock discipline (kernel/time/ntp.c) as pure
 * functions: the tick-length recompute, the per-tick phase chunk and slew,
 * and the PLL/FLL frequency controller. The class in ntp_state.dfy applies
 * them to the registers.
 */
module NtpControl {
  import opened FixedPoint
  import opened NtpDefs

  // ---------------------------------------------------------------- frequency

  /**
   * The registers ntp_update_frequency reads (tick_usec, ntp_tick_adj,
   * time_freq) and writes (tick_nsec, tick_length, tick_length_base).
   */
  datatype FreqRegs = FreqRegs(
    tickUsec: int,
    tickAdj: int,
    freq: int,
    tickNsec: int,
    tickLength: int,
    tickLengthBase: int)

  /** The scaled length of one second: the nominal USER_HZ ticks plus the boot adjustment and the frequency offset. */
  function SecondLength(tickUsec: int, tickAdj: int, freq: int): int
  {
    ShiftLeft(tickUsec * NSEC_PER_USEC * USER_HZ, NTP_SCALE_SHIFT) + tickAdj + freq
  }

  /** ntp_update_frequency on values. */
  function FrequencyRecompute(f: FreqRegs): (r: FreqRegs)
    // only the outputs change
    ensures r.tickUsec == f.tickUsec && r.tickAdj == f.tickAdj && r.freq == f.freq
    // the base tick is the second split evenly over NTP_INTERVAL_FREQ ticks, rounded down
    ensures var len := SecondLength(f.tickUsec, f.tickAdj, f.freq);
            r.tickLengthBase * NTP_INTERVAL_FREQ <= len < (r.tickLengthBase + 1) * NTP_INTERVAL_FREQ
    // tick_nsec is the HZ tick unscaled, rounded down
    ensures var hzTick := SecondLength(f.tickUsec, f.tickAdj, f.freq) / HZ;
            r.tickNsec * Pow2(NTP_SCALE_SHIFT) <= hzTick < (r.tickNsec + 1) * Pow2(NTP_SCALE_SHIFT)
    // the live tick keeps its correction on top of the base: the new base applies at once
    ensures r.tickLength - r.tickLengthBase == f.tickLength - f.tickLengthBase
  {
    var secondLength := SecondLength(f.tickUsec, f.tickAdj, f.freq);
    var newBase := secondLength / NTP_INTERVAL_FREQ;
    FreqRegs(
      f.tickUsec, f.tickAdj, f.freq,
      UnsignedShiftRight(secondLength / HZ, NTP_SCALE_SHIFT),
      f.tickLength + (newBase - f.tickLengthBase),
      newBase)
  }

  /** Recomputing twice with nothing changed in between is recomputing once. */
  lemma FrequencyRecomputeIdempotent(f: FreqRegs)
    ensures FrequencyRecompute(FrequencyRecompute(f)) == FrequencyRecompute(f)
  {}

  // ---------------------------------------------------------------- per-tick phase and slew

  /** ntp_offset_chunk: the part of time_offset applied in one tick, shift_right(time_offset, SHIFT_PLL + time_constant). */
  function OffsetChunk(offset: int, timeConstant: nat): (delta: int)
    // the chunk and the remainder keep the sign of the offset: the offset decays toward zero
    ensures 0 <= offset ==> 0 <= delta <= offset
    ensures offset < 0 ==> offset <= delta <= 0
    // a remainder smaller in magnitude than 2^(SHIFT_PLL + time_constant) is never applied
    ensures delta == 0 <==> Abs(offset) < Pow2(SHIFT_PLL + timeConstant)
  {
    ShiftRight(offset, SHIFT_PLL + timeConstant)
  }

  /** What one tick does to the outstanding adjtime() slew: the new time_adjust and the change to tick_length. */
  datatype SlewStep = SlewStep(adjust: int, tickDelta: int)

  /** The time_adjust part of second_overflow. */
  function Slew(adjust: int): (r: SlewStep)
    ensures adjust == 0 ==> r == SlewStep(0, 0)
    // moves toward zero without crossing it
    ensures 0 <= adjust ==> 0 <= r.adjust <= adjust
    ensures adjust <= 0 ==> adjust <= r.adjust <= 0
    // by at most MAX_TICKADJ usecs per tick, finishing once within reach
    ensures adjust - MAX_TICKADJ <= r.adjust <= adjust + MAX_TICKADJ
    ensures r.adjust == 0 <==> -MAX_TICKADJ <= adjust <= MAX_TICKADJ
    // the tick is lengthened for a positive slew, shortened for a negative one, by at most MAX_TICKADJ_SCALED
    ensures adjust > MAX_TICKADJ ==> r.tickDelta == MAX_TICKADJ_SCALED
    ensures adjust < -MAX_TICKADJ ==> r.tickDelta == -MAX_TICKADJ_SCALED
    ensures 0 <= adjust ==> 0 <= r.tickDelta <= MAX_TICKADJ_SCALED
    ensures adjust <= 0 ==> -MAX_TICKADJ_SCALED <= r.tickDelta <= 0
  {
    if adjust == 0 then SlewStep(0, 0)
    else if adjust > MAX_TICKADJ then SlewStep(adjust - MAX_TICKADJ, MAX_TICKADJ_SCALED)
    else if adjust < -MAX_TICKADJ then SlewStep(adjust + MAX_TICKADJ, -MAX_TICKADJ_SCALED)
    else
      var us := CDiv(adjust * NSEC_PER_USEC, NTP_INTERVAL_FREQ);
      FinalSlewBound(adjust);
      SlewStep(0, ShiftLeft(us, NTP_SCALE_SHIFT))
  }

  /** The last, partial slew step is no larger than a full one. */
  lemma FinalSlewBound(adjust: int)
    requires -MAX_TICKADJ <= adjust <= MAX_TICKADJ
    ensures var d := ShiftLeft(CDiv(adjust * NSEC_PER_USEC, NTP_INTERVAL_FREQ), NTP_SCALE_SHIFT);
            -MAX_TICKADJ_SCALED <= d <= MAX_TICKADJ_SCALED
  {
    var p := Pow2(NTP_SCALE_SHIFT);
    var f := NTP_INTERVAL_FREQ;
    var q := Abs(adjust * NSEC_PER_USEC) / f;
    var full := MAX_TICKADJ * NSEC_PER_USEC;
    assert Abs(adjust * NSEC_PER_USEC) <= full;
    FloorDivBounds(Abs(adjust * NSEC_PER_USEC), f);
    assert q * f <= full;
    MulLeft(q * f, full, p);
    assert (q * p) * f <= full * p by {
      assert (q * p) * f == (q * f) * p;
    }
    DivLowerBound(q * p, full * p, f);
    assert Abs(CDiv(adjust * NSEC_PER_USEC, f)) * p <= MAX_TICKADJ_SCALED;
  }

  lemma MulLeft(a: int, b: int, p: nat)
    requires a <= b
    ensures a * p <= b * p
  {
    MulNonneg(b - a, p);
  }

  /** If x * f <= y then x <= y / f. */
  lemma DivLowerBound(x: int, y: int, f: int)
    requires f >= 1 && x * f <= y
    ensures x <= y / f
  {
    FloorDivBounds(y, f);
    if y / f < x {
      MulLeft(y / f + 1, x, f);
    }
  }

  /** time_adjust after `n` ticks. */
  function SlewAfter(adjust: int, n: nat): (rest: int)
    decreases n
  {
    if n == 0 then adjust else SlewAfter(Slew(adjust).adjust, n - 1)
  }

  /** An adjtime() request of `adjust` usecs is drained after n ticks exactly when n * MAX_TICKADJ covers it. */
  lemma {:induction false} SlewDrains(adjust: int, n: nat)
    ensures SlewAfter(adjust, n) == 0 <==> Abs(adjust) <= n * MAX_TICKADJ
    decreases n
  {
    if n > 0 {
      SlewDrains(Slew(adjust).adjust, n - 1);
    }
  }

  // ---------------------------------------------------------------- PLL/FLL controller

  /** The offset sample of ntp_update_offset in nsecs: usecs are clamped to a second and converted, then clamped to MAXPHASE. */
  function ClampedOffset(offset: int, nano: bool): (r: int)
    ensures Abs(r) <= MAXPHASE
    ensures (offset < 0 ==> r <= 0) && (offset > 0 ==> r >= 0)
    // in-range samples pass through, converted to nsecs
    ensures nano && Abs(offset) <= MAXPHASE ==> r == offset
    ensures !nano && Abs(offset) <= USEC_PER_SEC && Abs(offset * NSEC_PER_USEC) <= MAXPHASE ==>
              r == offset * NSEC_PER_USEC
    // out-of-range samples saturate
    ensures nano && offset > MAXPHASE ==> r == MAXPHASE
    ensures nano && offset < -(MAXPHASE as int) ==> r == -(MAXPHASE as int)
    ensures !nano && Abs(offset) <= USEC_PER_SEC && offset * NSEC_PER_USEC > MAXPHASE ==> r == MAXPHASE
    ensures !nano && Abs(offset) <= USEC_PER_SEC && offset * NSEC_PER_USEC < -(MAXPHASE as int) ==>
              r == -(MAXPHASE as int)
    ensures !nano && offset > USEC_PER_SEC ==> r == Min(USEC_PER_SEC * NSEC_PER_USEC, MAXPHASE)
    ensures !nano && offset < -USEC_PER_SEC ==> r == -Min(USEC_PER_SEC * NSEC_PER_USEC, MAXPHASE)
  {
    var ns := if nano then offset else ClampAbs(offset, USEC_PER_SEC) * NSEC_PER_USEC;
    ClampAbs(ns, MAXPHASE)
  }

  /** ntp_update_offset_fll selects FLL mode (sets STA_MODE). */
  predicate FllEngaged(secs: int, status: set<Status>)
  {
    secs >= MINSEC && (StaFll in status || secs > MAXSEC)
  }

  /** The FLL frequency contribution of ntp_update_offset_fll. */
  function FllAdjust(offset: int, secs: int, status: set<Status>): (r: int)
    ensures !FllEngaged(secs, status) ==> r == 0
    // the correction has the direction of the offset and no more than its scaled size
    ensures offset >= 0 ==> 0 <= r <= ShiftLeft(offset, NTP_SCALE_SHIFT - SHIFT_FLL)
    ensures offset <= 0 ==> ShiftLeft(offset, NTP_SCALE_SHIFT - SHIFT_FLL) <= r <= 0
  {
    if FllEngaged(secs, status) then
      var scaled := ShiftLeft(offset, NTP_SCALE_SHIFT - SHIFT_FLL);
      FloorDivBounds(Abs(scaled), secs);
      CDiv(scaled, secs)
    else 0
  }

  /** The sampling interval the PLL uses: secs, capped at 2^(SHIFT_PLL + 1 + time_constant). */
  function PllInterval(secs: int, timeConstant: nat): (r: int)
    ensures r <= secs && r <= Pow2(SHIFT_PLL + 1 + timeConstant)
    ensures r == secs || r == Pow2(SHIFT_PLL + 1 + timeConstant)
  {
    var cap := Pow2(SHIFT_PLL + 1 + timeConstant);
    if secs > cap then cap else secs
  }

  /** The PLL frequency contribution of ntp_update_offset. */
  function PllAdjust(offset: int, secs: int, timeConstant: nat): (r: int)
    requires timeConstant <= MAXTC
    // over a non-negative interval the correction has the direction of the offset
    ensures secs >= 0 && offset >= 0 ==> r >= 0
    ensures secs >= 0 && offset <= 0 ==> r <= 0
    ensures secs == 0 || offset == 0 ==> r == 0
  {
    var interval := PllInterval(secs, timeConstant);
    MulSign(offset, interval);
    ShiftLeft(offset * interval, NTP_SCALE_SHIFT - 2 * (SHIFT_PLL + 2 + timeConstant))
  }

  /** The new time_freq of ntp_update_offset: the old one plus both contributions, clamped to +-MAXFREQ_SCALED. */
  function FrequencyUpdate(freq: int, offset: int, secs: int, status: set<Status>, timeConstant: nat): (r: int)
    requires timeConstant <= MAXTC
    ensures Abs(r) <= MAXFREQ_SCALED
    // the frequency is steered in the direction of the offset (negative feedback)
    ensures Abs(freq) <= MAXFREQ_SCALED && secs >= 0 && offset >= 0 ==> r >= freq
    ensures Abs(freq) <= MAXFREQ_SCALED && secs >= 0 && offset <= 0 ==> r <= freq
    // with no offset, or a frozen interval, the frequency is kept
    ensures Abs(freq) <= MAXFREQ_SCALED && (offset == 0 || secs == 0) ==> r == freq
  {
    var adj := FllAdjust(offset, secs, status) + PllAdjust(offset, secs, timeConstant);
    ClampAbs(adj + freq, MAXFREQ_SCALED)
  }

  /** The new time_offset of ntp_update_offset: the sample, scaled and spread over NTP_INTERVAL_FREQ ticks. */
  function PhaseOffset(offset: int): (r: int)
    ensures offset >= 0 ==> r >= 0
    ensures offset <= 0 ==> r <= 0
    // truncated toward zero: |r| is the whole number of NTP_INTERVAL_FREQ in the scaled sample
    ensures Abs(r) * NTP_INTERVAL_FREQ <= Abs(ShiftLeft(offset, NTP_SCALE_SHIFT))
    ensures Abs(ShiftLeft(offset, NTP_SCALE_SHIFT)) < (Abs(r) + 1) * NTP_INTERVAL_FREQ
  {
    var scaled := ShiftLeft(offset, NTP_SCALE_SHIFT);
    FloorDivBounds(Abs(scaled), NTP_INTERVAL_FREQ);
    CDiv(scaled, NTP_INTERVAL_FREQ)
  }
}
