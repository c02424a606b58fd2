/**
 * Constants, status bits, mode bits and the administrative request of the
 * NTP clock discipline (kernel/time/ntp.c).
 *
 * Constants that ntp.c defines itself carry their values. The ones it takes
 * from headers that are not part of this model are declared without a value;
 * their types carry only the assumptions the engine needs.
 */
module NtpDefs {
  import opened FixedPoint


  // Defined in ntp.c.
  const SECS_PER_DAY: int := 86400
  const MAX_TICKADJ: int := 500  // usecs

  // Units and the limits of a C `long long`.
  const NSEC_PER_USEC: int := 1000
  const USEC_PER_SEC: int := 1000000
  const LLONG_MIN: int := -0x8000_0000_0000_0000
  const LLONG_MAX: int := 0x7fff_ffff_ffff_ffff

  // Header constants; values are not part of this model.
  const HZ: Positive
  const USER_HZ: Positive
  const NTP_INTERVAL_FREQ: Positive
  const PPM_SCALE: Positive
  const MAXPHASE: nat
  const MAXFREQ: nat
  const MAXFREQ_SCALED: nat
  const NTP_PHASE_LIMIT: nat
  const MINSEC: Positive
  const MAXSEC: int
  const SHIFT_PLL: nat

  /** The initial time constant 2 must lie in [0, MAXTC]. */
  type TimeConstantLimit = n: nat | 2 <= n witness 2
  const MAXTC: TimeConstantLimit

  /** The PLL gain shift NTP_SCALE_SHIFT - 2 * (SHIFT_PLL + 2 + time_constant) is never negative. */
  type ScaleShift = n: nat | 2 * (SHIFT_PLL + 2 + MAXTC) <= n witness 2 * (SHIFT_PLL + 2 + MAXTC)
  const NTP_SCALE_SHIFT: ScaleShift

  /** The FLL shift NTP_SCALE_SHIFT - SHIFT_FLL is never negative. */
  type FllShift = n: nat | n <= NTP_SCALE_SHIFT witness 0
  const SHIFT_FLL: FllShift

  /** "No leap second pending". */
  const TIME_MAX: int
  const BITS_PER_LONG: nat
  /** Boot value of tick_usec. */
  const TICK_USEC: int

  /** MAX_TICKADJ microseconds as a scaled per-tick amount. */
  const MAX_TICKADJ_SCALED: int :=
    ShiftLeft(MAX_TICKADJ * NSEC_PER_USEC, NTP_SCALE_SHIFT) / NTP_INTERVAL_FREQ

  /** Bits of time_status (STA_*); a status word is the set of bits it has. */
  datatype Status =
    | StaPll       // enable PLL updates
    | StaFll       // select frequency-lock mode
    | StaIns       // insert leap
    | StaDel       // delete leap
    | StaUnsync    // clock unsynchronized
    | StaFreqhold  // hold frequency
    | StaNano      // resolution (0 = us, 1 = ns)
    | StaClockerr  // clock hardware fault
    | StaMode      // mode (0 = PLL, 1 = FLL)

  /** The read-only bits (STA_RONLY), which a status request cannot change. */
  const STA_RONLY: set<Status>

  /** Bits of timex.modes (ADJ_*); a mode word is the set of bits it has. */
  datatype AdjMode =
    | AdjOffset
    | AdjFrequency
    | AdjMaxerror
    | AdjEsterror
    | AdjStatus
    | AdjTimeconst
    | AdjTai
    | AdjSetoffset
    | AdjMicro
    | AdjNano
    | AdjTick
    | AdjOffsetSingleshot
    | AdjOffsetReadonly
    | AdjAdjtime

  /** The `time` field of a request: seconds and a fraction (usecs, or nsecs under ADJ_NANO). */
  datatype TimeVal = TimeVal(sec: int, usec: int)

  /** The fields of struct timex this engine reads. */
  datatype Timex = Timex(
    modes: set<AdjMode>,
    offset: int,
    freq: int,
    maxerror: int,
    esterror: int,
    status: set<Status>,
    constant: int,
    tick: int,
    time: TimeVal)

  /** The outcome of validating a request: 0, -EINVAL or -EPERM. */
  datatype Errno = Success | Einval | Eperm
}
