/**
 * The NTP registers of kernel/time/ntp.c and the operations that update them
 * in place: the per-second tick, the frequency recompute, the PLL/FLL offset
 * update, the reset and the adjtimex status and mode processing.
 *
 * The kernel keeps the registers as file-scope variables guarded by the
 * timekeeping locks; here they are the fields of one object and every call
 * runs alone. __ktime_get_real_seconds() is the parameter `now`.
 */
module Ntp {
  import opened FixedPoint
  import opened NtpDefs
  import opened NtpLeap
  import opened NtpControl

  /** ntp_get_next_leap: the pending leap second, or none (KTIME_MAX). */
  datatype NextLeap = LeapAt(sec: int) | NoLeap

  /** is_error_status: the status marks the clock unsynchronized or faulty. */
  predicate IsErrorStatus(status: set<Status>)
  {
    StaUnsync in status || StaClockerr in status
  }

  /** The seconds ntp_update_offset lets the controller see since the last sample: none under STA_FREQHOLD. */
  function SampleInterval(now: int, reftime: int, status: set<Status>): (secs: int)
    ensures StaFreqhold in status ==> secs == 0
    ensures StaFreqhold !in status ==> reftime + secs == now
  {
    if StaFreqhold in status then 0 else now - reftime
  }

  /** The time constant ADJ_TIMECONST stores: microsecond requests are offset by 4, then clamped to [0, MAXTC]. */
  function TimeConstantOf(constant: int, nano: bool): (r: int)
    ensures 0 <= r <= MAXTC
    ensures var c := if nano then constant else constant + 4;
            (0 <= c <= MAXTC ==> r == c) && (c < 0 ==> r == 0) && (c > MAXTC ==> r == MAXTC)
  {
    Clamp(if nano then constant else constant + 4, 0, MAXTC)
  }

  /**
   * The status word process_adjtimex_modes leaves after ADJ_STATUS: the read-only bits are kept (or reset to
   * just STA_UNSYNC when the request turns the PLL off) and every other bit is taken from the request.
   */
  function ProcessedStatus(status: set<Status>, txcStatus: set<Status>): (r: set<Status>)
    ensures forall b :: b !in STA_RONLY ==> (b in r <==> b in txcStatus)
    ensures StaPll !in status || StaPll in txcStatus ==>
              forall b :: b in STA_RONLY ==> (b in r <==> b in status)
    ensures StaPll in status && StaPll !in txcStatus ==>
              forall b :: b in STA_RONLY ==> (b in r <==> b == StaUnsync)
  {
    var kept := if StaPll in status && StaPll !in txcStatus then {StaUnsync} else status;
    (kept * STA_RONLY) + (txcStatus - STA_RONLY)
  }

  /**
   * The status word after the ADJ_STATUS, ADJ_NANO and ADJ_MICRO steps of process_adjtimex_modes:
   * ADJ_MICRO clears STA_NANO over ADJ_NANO, which sets it over whatever ADJ_STATUS left.
   */
  function StatusAfterModes(status: set<Status>, modes: set<AdjMode>, txcStatus: set<Status>): (r: set<Status>)
    ensures var merged := if AdjStatus in modes then ProcessedStatus(status, txcStatus) else status;
            && (forall b :: b != StaNano ==> (b in r <==> b in merged))
            && (StaNano in r <==> AdjMicro !in modes && (AdjNano in modes || StaNano in merged))
    ensures modes !! {AdjStatus, AdjNano, AdjMicro} ==> r == status
  {
    var merged := if AdjStatus in modes then ProcessedStatus(status, txcStatus) else status;
    var withNano := if AdjNano in modes then merged + {StaNano} else merged;
    if AdjMicro in modes then withNano - {StaNano} else withNano
  }

  class NtpState {
    var timeState: TimeState        // time_state
    var timeStatus: set<Status>     // time_status
    var timeOffset: int             // time_offset, scaled nsecs still to apply
    var timeConstant: int           // time_constant
    var timeMaxerror: int           // time_maxerror, usecs
    var timeEsterror: int           // time_esterror, usecs
    var timeFreq: int               // time_freq, scaled nsecs per second
    var timeReftime: int            // time_reftime, seconds
    var timeAdjust: int             // time_adjust, usecs of adjtime() slew outstanding
    var tickAdj: int                // ntp_tick_adj
    var nextLeapSec: int            // ntp_next_leap_sec
    var tickUsec: int               // tick_usec
    var tickNsec: int               // tick_nsec
    var tickLength: int             // tick_length
    var tickLengthBase: int         // tick_length_base

    /** The invariants every operation keeps. */
    ghost predicate Valid()
      reads this
    {
      && 0 <= timeConstant <= MAXTC
      && Abs(timeFreq) <= MAXFREQ_SCALED
      && (timeState in {TimeOk, TimeWait} ==> nextLeapSec == TIME_MAX)
    }

    /** The registers of the frequency recompute. */
    function Freq(): FreqRegs
      reads this
    {
      FreqRegs(tickUsec, tickAdj, timeFreq, tickNsec, tickLength, tickLengthBase)
    }

    /** The static initialisers, followed by ntp_init (which is ntp_clear). */
    constructor ()
      ensures Valid()
      ensures timeState == TimeOk && timeStatus == {StaUnsync} && timeConstant == 2
      ensures timeFreq == 0 && timeOffset == 0 && timeAdjust == 0 && tickAdj == 0 && timeReftime == 0
      ensures timeMaxerror == NTP_PHASE_LIMIT && timeEsterror == NTP_PHASE_LIMIT
      ensures nextLeapSec == TIME_MAX && tickUsec == TICK_USEC
      ensures tickLengthBase == FrequencyRecompute(FreqRegs(TICK_USEC, 0, 0, 0, 0, 0)).tickLengthBase
      ensures tickLength == tickLengthBase
    {
      tickUsec := TICK_USEC;
      tickNsec := 0;
      tickLength := 0;
      tickLengthBase := 0;
      timeState := TimeOk;
      timeStatus := {StaUnsync};
      timeOffset := 0;
      timeConstant := 2;
      timeMaxerror := NTP_PHASE_LIMIT;
      timeEsterror := NTP_PHASE_LIMIT;
      timeFreq := 0;
      timeReftime := 0;
      timeAdjust := 0;
      tickAdj := 0;
      nextLeapSec := TIME_MAX;
      new;
      Clear();
    }

    /** ntp_synced: the clock is not marked unsynchronized. */
    function Synced(): (r: bool)
      reads this
      ensures r <==> StaUnsync !in timeStatus
      ensures r ==> !IsErrorStatus(timeStatus) || StaClockerr in timeStatus
    {
      StaUnsync !in timeStatus
    }

    /** ntp_tick_length. */
    function TickLength(): int
      reads this
    {
      tickLength
    }

    /** ntp_get_next_leap: a leap second is reported only while an insertion is pending and still requested. */
    function GetNextLeap(): (r: NextLeap)
      reads this
      ensures r.LeapAt? <==> timeState == TimeIns && StaIns in timeStatus
      ensures r.LeapAt? ==> r.sec == nextLeapSec
    {
      if timeState == TimeIns && StaIns in timeStatus then LeapAt(nextLeapSec) else NoLeap
    }

    /** ntp_update_frequency: recompute tick_length_base and tick_nsec, carrying the pending correction in tick_length over. */
    method UpdateFrequency()
      modifies this`tickNsec, this`tickLength, this`tickLengthBase
      ensures Freq() == FrequencyRecompute(old(Freq()))
    {
      var secondLength := ShiftLeft(tickUsec * NSEC_PER_USEC * USER_HZ, NTP_SCALE_SHIFT);
      secondLength := secondLength + tickAdj;
      secondLength := secondLength + timeFreq;

      tickNsec := UnsignedShiftRight(secondLength / HZ, NTP_SCALE_SHIFT);
      var newBase := secondLength / NTP_INTERVAL_FREQ;

      tickLength := tickLength + (newBase - tickLengthBase);
      tickLengthBase := newBase;
    }

    /** ntp_update_offset_fll: select FLL or PLL mode and return the FLL frequency contribution. */
    method UpdateOffsetFll(offset64: int, secs: int) returns (freqAdj: int)
      modifies this`timeStatus
      ensures StaMode in timeStatus <==> FllEngaged(secs, old(timeStatus))
      ensures timeStatus - {StaMode} == old(timeStatus) - {StaMode}
      ensures Synced() == old(Synced()) && IsErrorStatus(timeStatus) == IsErrorStatus(old(timeStatus))
      ensures freqAdj == FllAdjust(offset64, secs, old(timeStatus))
    {
      timeStatus := timeStatus - {StaMode};
      if secs < MINSEC {
        return 0;
      }
      if StaFll !in timeStatus && secs <= MAXSEC {
        return 0;
      }
      timeStatus := timeStatus + {StaMode};
      freqAdj := CDiv(ShiftLeft(offset64, NTP_SCALE_SHIFT - SHIFT_FLL), secs);
    }

    /** ntp_update_offset: feed one offset sample to the PLL/FLL controller. */
    method UpdateOffset(offset: int, now: int)
      requires Valid()
      modifies this`timeStatus, this`timeReftime, this`timeFreq, this`timeOffset
      ensures Valid()
      // a sample never changes whether the clock counts as synchronized
      ensures Synced() == old(Synced()) && IsErrorStatus(timeStatus) == IsErrorStatus(old(timeStatus))
      // without STA_PLL the sample is ignored
      ensures StaPll !in old(timeStatus) ==>
                timeStatus == old(timeStatus) && timeReftime == old(timeReftime) &&
                timeFreq == old(timeFreq) && timeOffset == old(timeOffset)
      ensures StaPll in old(timeStatus) ==>
                var sample := ClampedOffset(offset, StaNano in old(timeStatus));
                var secs := SampleInterval(now, old(timeReftime), old(timeStatus));
                && timeReftime == now
                && (StaMode in timeStatus <==> FllEngaged(secs, old(timeStatus)))
                && timeStatus - {StaMode} == old(timeStatus) - {StaMode}
                && timeFreq == FrequencyUpdate(old(timeFreq), sample, secs, old(timeStatus), timeConstant)
                && timeOffset == PhaseOffset(sample)
    {
      if StaPll !in timeStatus {
        return;
      }

      var off := offset;
      if StaNano !in timeStatus {
        // a microsecond sample is saturated at one second before it is scaled to nanoseconds
        off := ClampAbs(off, USEC_PER_SEC);
        off := off * NSEC_PER_USEC;
      }
      off := ClampAbs(off, MAXPHASE);
      assert off == ClampedOffset(offset, StaNano in timeStatus);

      var secs := now - timeReftime;
      if StaFreqhold in timeStatus {
        secs := 0;
      }
      timeReftime := now;

      SteerFrequency(off, secs);

      timeOffset := CDiv(ShiftLeft(off, NTP_SCALE_SHIFT), NTP_INTERVAL_FREQ);
    }

    /** The frequency step of ntp_update_offset: add the FLL and PLL contributions to time_freq and clamp. */
    method SteerFrequency(offset64: int, secs: int)
      requires Valid()
      modifies this`timeStatus, this`timeFreq
      ensures Valid()
      ensures Synced() == old(Synced()) && IsErrorStatus(timeStatus) == IsErrorStatus(old(timeStatus))
      ensures StaMode in timeStatus <==> FllEngaged(secs, old(timeStatus))
      ensures timeStatus - {StaMode} == old(timeStatus) - {StaMode}
      ensures timeFreq == FrequencyUpdate(old(timeFreq), offset64, secs, old(timeStatus), timeConstant)
    {
      var freqAdj := UpdateOffsetFll(offset64, secs);

      // the interval the PLL sees is capped at 2^(SHIFT_PLL + 1 + timeConstant) seconds
      var interval := secs;
      if interval > Pow2(SHIFT_PLL + 1 + timeConstant) {
        interval := Pow2(SHIFT_PLL + 1 + timeConstant);
      }
      assert interval == PllInterval(secs, timeConstant);
      freqAdj := freqAdj + ShiftLeft(offset64 * interval, NTP_SCALE_SHIFT - 2 * (SHIFT_PLL + 2 + timeConstant));
      assert freqAdj == FllAdjust(offset64, secs, old(timeStatus)) + PllAdjust(offset64, secs, timeConstant);

      freqAdj := Min(freqAdj + timeFreq, MAXFREQ_SCALED);
      timeFreq := Max(freqAdj, -(MAXFREQ_SCALED as int));
    }

    /** ntp_clear: stop any slew, mark the clock unsynchronized, reset the error bounds and the phase. */
    method Clear()
      requires Valid()
      modifies this`timeAdjust, this`timeStatus, this`timeMaxerror, this`timeEsterror,
               this`tickNsec, this`tickLength, this`tickLengthBase, this`timeOffset, this`nextLeapSec
      ensures Valid()
      ensures !Synced() && IsErrorStatus(timeStatus)
      ensures timeStatus == old(timeStatus) + {StaUnsync}
      ensures timeAdjust == 0 && timeOffset == 0 && nextLeapSec == TIME_MAX
      ensures timeMaxerror == NTP_PHASE_LIMIT && timeEsterror == NTP_PHASE_LIMIT
      ensures var f := FrequencyRecompute(old(Freq()));
              tickNsec == f.tickNsec && tickLengthBase == f.tickLengthBase
      ensures tickLength == tickLengthBase
    {
      timeAdjust := 0;
      timeStatus := timeStatus + {StaUnsync};
      timeMaxerror := NTP_PHASE_LIMIT;
      timeEsterror := NTP_PHASE_LIMIT;

      UpdateFrequency();

      tickLength := tickLengthBase;
      timeOffset := 0;

      nextLeapSec := TIME_MAX;
    }

    /** second_overflow: the once-a-second tick at UTC second `secs`; returns the leap to apply to the clock. */
    method SecondOverflow(secs: int) returns (leap: int)
      requires Valid()
      modifies this`timeState, this`nextLeapSec, this`timeMaxerror, this`timeStatus,
               this`tickLength, this`timeOffset, this`timeAdjust
      ensures Valid()
      // the leap-second machine
      ensures LeapStep(timeState, nextLeapSec, leap) ==
              LeapTransition(old(timeState), old(timeStatus), secs, old(nextLeapSec))
      ensures old(timeState) == TimeOk && StaIns in old(timeStatus) ==> GetNextLeap() == LeapAt(InsertionSecond(secs))
      // the error bound grows and is capped; reaching the cap unsynchronizes the clock
      ensures timeMaxerror == Min(old(timeMaxerror) + MAXFREQ / NSEC_PER_USEC, NTP_PHASE_LIMIT)
      ensures timeMaxerror <= NTP_PHASE_LIMIT
      ensures old(timeMaxerror) <= NTP_PHASE_LIMIT ==> timeMaxerror >= old(timeMaxerror)
      ensures timeStatus == if old(timeMaxerror) + MAXFREQ / NSEC_PER_USEC > NTP_PHASE_LIMIT
                            then old(timeStatus) + {StaUnsync} else old(timeStatus)
      // so the tick never resynchronizes the clock, and an error status stays one
      ensures !old(Synced()) ==> !Synced()
      ensures old(timeMaxerror) + MAXFREQ / NSEC_PER_USEC > NTP_PHASE_LIMIT ==> !Synced()
      ensures IsErrorStatus(old(timeStatus)) ==> IsErrorStatus(timeStatus)
      // the tick is the base plus a chunk of the phase offset plus a step of the slew, each taken from its store
      ensures var delta := OffsetChunk(old(timeOffset), timeConstant);
              var slew := Slew(old(timeAdjust));
              && timeOffset + delta == old(timeOffset)
              && timeAdjust == slew.adjust
              && tickLength == tickLengthBase + delta + slew.tickDelta
    {
      // one step of the leap-second machine
      var step := LeapTransition(timeState, timeStatus, secs, nextLeapSec);
      timeState, nextLeapSec, leap := step.state, step.nextLeapSec, step.leap;

      GrowMaxerror();
      NextTickLength();
    }

    /** The error-bound step of second_overflow. */
    method GrowMaxerror()
      requires Valid()
      modifies this`timeMaxerror, this`timeStatus
      ensures Valid()
      ensures timeMaxerror == Min(old(timeMaxerror) + MAXFREQ / NSEC_PER_USEC, NTP_PHASE_LIMIT)
      ensures timeStatus == if old(timeMaxerror) + MAXFREQ / NSEC_PER_USEC > NTP_PHASE_LIMIT
                            then old(timeStatus) + {StaUnsync} else old(timeStatus)
      ensures !old(Synced()) ==> !Synced()
      ensures old(timeMaxerror) + MAXFREQ / NSEC_PER_USEC > NTP_PHASE_LIMIT ==> !Synced()
      ensures IsErrorStatus(old(timeStatus)) ==> IsErrorStatus(timeStatus)
    {
      // the error bound grows by MAXFREQ in microseconds; at NTP_PHASE_LIMIT it saturates and unsynchronizes the clock
      timeMaxerror := timeMaxerror + MAXFREQ / NSEC_PER_USEC;
      if timeMaxerror > NTP_PHASE_LIMIT {
        timeMaxerror := NTP_PHASE_LIMIT;
        timeStatus := timeStatus + {StaUnsync};
      }
    }

    /** The tick-length step of second_overflow: the base, a chunk of the phase offset and a step of the slew. */
    method NextTickLength()
      requires Valid()
      modifies this`tickLength, this`timeOffset, this`timeAdjust
      ensures Valid()
      ensures var delta := OffsetChunk(old(timeOffset), timeConstant);
              var slew := Slew(old(timeAdjust));
              && timeOffset + delta == old(timeOffset)
              && timeAdjust == slew.adjust
              && tickLength == tickLengthBase + delta + slew.tickDelta
    {
      // the next tick starts from the base and takes its chunk of the outstanding offset
      tickLength := tickLengthBase;
      var delta := OffsetChunk(timeOffset, timeConstant);
      timeOffset := timeOffset - delta;
      tickLength := tickLength + delta;

      assert tickLength == tickLengthBase + delta;

      if timeAdjust == 0 {
      } else if timeAdjust > MAX_TICKADJ {
        timeAdjust := timeAdjust - MAX_TICKADJ;
        tickLength := tickLength + MAX_TICKADJ_SCALED;
      } else if timeAdjust < -MAX_TICKADJ {
        timeAdjust := timeAdjust + MAX_TICKADJ;
        tickLength := tickLength - MAX_TICKADJ_SCALED;
      } else {
        tickLength := tickLength + ShiftLeft(CDiv(timeAdjust * NSEC_PER_USEC, NTP_INTERVAL_FREQ), NTP_SCALE_SHIFT);
        timeAdjust := 0;
      }
    }

    /** process_adj_status: take a new status word from a request, keeping the read-only bits. */
    method ProcessAdjStatus(txcStatus: set<Status>, now: int)
      requires Valid()
      modifies this`timeState, this`timeStatus, this`nextLeapSec, this`timeReftime
      ensures Valid()
      // turning the PLL off resets the machine and the status before the request is merged in
      ensures var pllOff := StaPll in old(timeStatus) && StaPll !in txcStatus;
              && timeState == (if pllOff then TimeOk else old(timeState))
              && nextLeapSec == (if pllOff then TIME_MAX else old(nextLeapSec))
              && timeStatus == ProcessedStatus(old(timeStatus), txcStatus)
      // turning it on restarts the sampling interval
      ensures timeReftime == if StaPll !in old(timeStatus) && StaPll in txcStatus then now else old(timeReftime)
    {
      if StaPll in timeStatus && StaPll !in txcStatus {
        timeState := TimeOk;
        timeStatus := {StaUnsync};
        nextLeapSec := TIME_MAX;
      }

      // a request that sets STA_PLL restarts the sampling interval at `now`
      if StaPll !in timeStatus && StaPll in txcStatus {
        timeReftime := now;
      }

      // the read-only bits are kept, all others come from the request
      timeStatus := timeStatus * STA_RONLY;
      timeStatus := timeStatus + (txcStatus - STA_RONLY);
    }

    /** The ADJ_STATUS, ADJ_NANO and ADJ_MICRO part of process_adjtimex_modes. */
    method ProcessStatusModes(txc: Timex, now: int)
      requires Valid()
      modifies this`timeState, this`timeStatus, this`nextLeapSec, this`timeReftime
      ensures Valid()
      ensures timeStatus == StatusAfterModes(old(timeStatus), txc.modes, txc.status)
      // a request that turns the PLL off resets the leap machine
      ensures var pllOff := AdjStatus in txc.modes && StaPll in old(timeStatus) && StaPll !in txc.status;
              && timeState == (if pllOff then TimeOk else old(timeState))
              && nextLeapSec == (if pllOff then TIME_MAX else old(nextLeapSec))
      // and one that turns it on restarts the sampling interval
      ensures timeReftime == if AdjStatus in txc.modes && StaPll !in old(timeStatus) && StaPll in txc.status
                             then now else old(timeReftime)
    {
      if AdjStatus in txc.modes {
        ProcessAdjStatus(txc.status, now);
      }
      if AdjNano in txc.modes {
        timeStatus := timeStatus + {StaNano};
      }
      if AdjMicro in txc.modes {
        timeStatus := timeStatus - {StaNano};
      }
    }

    /** The ADJ_FREQUENCY, ADJ_MAXERROR, ADJ_ESTERROR and ADJ_TIMECONST part of process_adjtimex_modes. */
    method ProcessValueModes(txc: Timex)
      requires Valid()
      modifies this`timeFreq, this`timeMaxerror, this`timeEsterror, this`timeConstant
      ensures Valid()
      // the frequency is clamped to +-MAXFREQ_SCALED
      ensures timeFreq == if AdjFrequency in txc.modes then ClampAbs(txc.freq * PPM_SCALE, MAXFREQ_SCALED) else old(timeFreq)
      // error bounds are taken as given
      ensures timeMaxerror == if AdjMaxerror in txc.modes then txc.maxerror else old(timeMaxerror)
      ensures timeEsterror == if AdjEsterror in txc.modes then txc.esterror else old(timeEsterror)
      // the time constant is clamped to [0, MAXTC] and taken in the resolution now in force
      ensures timeConstant == if AdjTimeconst in txc.modes
                              then TimeConstantOf(txc.constant, StaNano in timeStatus) else old(timeConstant)
    {
      if AdjFrequency in txc.modes {
        timeFreq := ClampAbs(txc.freq * PPM_SCALE, MAXFREQ_SCALED);
      }
      if AdjMaxerror in txc.modes {
        timeMaxerror := txc.maxerror;
      }
      if AdjEsterror in txc.modes {
        timeEsterror := txc.esterror;
      }
      if AdjTimeconst in txc.modes {
        timeConstant := TimeConstantOf(txc.constant, StaNano in timeStatus);
      }
    }

    /** The ADJ_OFFSET and ADJ_TICK part of process_adjtimex_modes, with the closing tick-length recompute. */
    method ProcessOffsetTickModes(txc: Timex, now: int, freqSet: bool)
      requires Valid()
      modifies this`timeStatus, this`timeReftime, this`timeFreq, this`timeOffset,
               this`tickUsec, this`tickNsec, this`tickLength, this`tickLengthBase
      ensures Valid()
      // an offset sample reaches the controller when the PLL is on
      ensures AdjOffset in txc.modes && StaPll in old(timeStatus) ==>
                var sample := ClampedOffset(txc.offset, StaNano in old(timeStatus));
                var secs := SampleInterval(now, old(timeReftime), old(timeStatus));
                && timeReftime == now
                && (StaMode in timeStatus <==> FllEngaged(secs, old(timeStatus)))
                && timeStatus - {StaMode} == old(timeStatus) - {StaMode}
                && timeFreq == FrequencyUpdate(old(timeFreq), sample, secs, old(timeStatus), timeConstant)
                && timeOffset == PhaseOffset(sample)
      // otherwise the controller is left alone
      ensures !(AdjOffset in txc.modes && StaPll in old(timeStatus)) ==>
                && timeStatus == old(timeStatus) && timeReftime == old(timeReftime)
                && timeOffset == old(timeOffset) && timeFreq == old(timeFreq)
      ensures tickUsec == if AdjTick in txc.modes then txc.tick else old(tickUsec)
      // the tick length follows any change to the tick, the frequency or the offset
      ensures !freqSet && txc.modes !! {AdjTick, AdjOffset} ==>
                tickLength == old(tickLength) && tickLengthBase == old(tickLengthBase) && tickNsec == old(tickNsec)
      ensures freqSet || !(txc.modes !! {AdjTick, AdjOffset}) ==>
                var f := FrequencyRecompute(FreqRegs(tickUsec, tickAdj, timeFreq, 0, 0, 0));
                tickLengthBase == f.tickLengthBase && tickNsec == f.tickNsec
      ensures tickLength - tickLengthBase == old(tickLength - tickLengthBase)
    {
      if AdjOffset in txc.modes {
        UpdateOffset(txc.offset, now);
      }
      if AdjTick in txc.modes {
        tickUsec := txc.tick;
      }
      if freqSet || AdjTick in txc.modes || AdjOffset in txc.modes {
        UpdateFrequency();
      }
    }

    /** process_adjtimex_modes: apply an adjtimex request field by field; `tai` is *time_tai, returned updated. */
    method ProcessAdjtimexModes(txc: Timex, now: int, tai: int) returns (newTai: int)
      requires Valid()
      modifies this`timeState, this`timeStatus, this`nextLeapSec, this`timeReftime, this`timeFreq,
               this`timeMaxerror, this`timeEsterror, this`timeConstant, this`timeOffset,
               this`tickUsec, this`tickNsec, this`tickLength, this`tickLengthBase
      ensures Valid()
      // the status stage: the request's bits, ADJ_NANO / ADJ_MICRO, and the leap machine reset when the PLL goes off
      ensures var pllOff := AdjStatus in txc.modes && StaPll in old(timeStatus) && StaPll !in txc.status;
              && timeState == (if pllOff then TimeOk else old(timeState))
              && nextLeapSec == (if pllOff then TIME_MAX else old(nextLeapSec))
      // error bounds are taken as given
      ensures timeMaxerror == if AdjMaxerror in txc.modes then txc.maxerror else old(timeMaxerror)
      ensures timeEsterror == if AdjEsterror in txc.modes then txc.esterror else old(timeEsterror)
      // the TAI offset is stored into the s32 *time_tai
      ensures newTai == if AdjTai in txc.modes && txc.constant > 0 then TruncS32(txc.constant) else tai
      // each later step sees the status, reference time and frequency the earlier steps left
      ensures var status := StatusAfterModes(old(timeStatus), txc.modes, txc.status);
              var reftime := if AdjStatus in txc.modes && StaPll !in old(timeStatus) && StaPll in txc.status
                             then now else old(timeReftime);
              var freq := if AdjFrequency in txc.modes then ClampAbs(txc.freq * PPM_SCALE, MAXFREQ_SCALED)
                          else old(timeFreq);
              // the time constant is clamped to [0, MAXTC] in the resolution just set
              && timeConstant == (if AdjTimeconst in txc.modes then TimeConstantOf(txc.constant, StaNano in status)
                                  else old(timeConstant))
              // an offset sample is taken under that status, reference time, frequency and time constant
              && (AdjOffset in txc.modes && StaPll in status ==>
                    var sample := ClampedOffset(txc.offset, StaNano in status);
                    var secs := SampleInterval(now, reftime, status);
                    && timeReftime == now
                    && (StaMode in timeStatus <==> FllEngaged(secs, status))
                    && timeStatus - {StaMode} == status - {StaMode}
                    && timeFreq == FrequencyUpdate(freq, sample, secs, status, timeConstant)
                    && timeOffset == PhaseOffset(sample))
              // and without one those are what the earlier steps left
              && (!(AdjOffset in txc.modes && StaPll in status) ==>
                    && timeStatus == status && timeReftime == reftime
                    && timeFreq == freq && timeOffset == old(timeOffset))
      ensures tickUsec == if AdjTick in txc.modes then txc.tick else old(tickUsec)
      // the tick length follows any change to the tick, the frequency or the offset
      ensures txc.modes !! {AdjTick, AdjFrequency, AdjOffset} ==>
                tickLength == old(tickLength) && tickLengthBase == old(tickLengthBase) && tickNsec == old(tickNsec)
      ensures !(txc.modes !! {AdjTick, AdjFrequency, AdjOffset}) ==>
                var f := FrequencyRecompute(FreqRegs(tickUsec, tickAdj, timeFreq, 0, 0, 0));
                tickLengthBase == f.tickLengthBase && tickNsec == f.tickNsec
      ensures tickLength - tickLengthBase == old(tickLength - tickLengthBase)
    {
      ProcessStatusModes(txc, now);
      ghost var statusSet, reftimeSet := timeStatus, timeReftime;
      ProcessValueModes(txc);
      ghost var freqSet := timeFreq;
      if AdjTai in txc.modes && txc.constant > 0 {
        newTai := TruncS32(txc.constant);
      } else {
        newTai := tai;
      }
      ProcessOffsetTickModes(txc, now, AdjFrequency in txc.modes);
    }
  }

  /**
   * A leap that ntp_get_next_leap reports is the one the coming ticks deliver: with
   * STA_INS held, every tick before that second keeps TIME_INS and returns 0, and the
   * tick at that second enters TIME_OOP and returns -1.
   */
  lemma ReportedLeapArrives(ntp: NtpState, secs: int)
    requires ntp.GetNextLeap().LeapAt? && secs <= ntp.GetNextLeap().sec
    ensures var t := ntp.GetNextLeap().sec;
            var run := LeapRun(LeapStep(ntp.timeState, ntp.nextLeapSec, 0), ntp.timeStatus, secs, t - secs + 1);
            && (forall i :: 0 <= i < t - secs ==> run[i] == LeapStep(TimeIns, t, 0))
            && run[t - secs] == LeapStep(TimeOop, t, -1)
  {
    InsertionPending(ntp.timeStatus, ntp.nextLeapSec, secs);
  }
}
