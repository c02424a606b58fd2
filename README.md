# LegoOS NTP clock discipline and vmemmap bump allocator, in Dafny

This project models two pieces of the LegoOS kernel and proves properties about them.

**The NTP clock-discipline engine (`kernel/time/ntp.c`).** This covers:

- the registers `time_state`, `time_status`, `time_offset`, `time_freq`, `time_adjust`, `tick_length`, `tick_length_base` and the rest;
- the once-a-second `second_overflow`, with its leap-second state machine, error-bound growth, phase-offset decay and `adjtime()` slew;
- the frequency recompute `ntp_update_frequency`;
- the PLL/FLL controller `ntp_update_offset` and `ntp_update_offset_fll`;
- `ntp_clear`;
- the adjtimex status and mode processing, and the request validator `ntp_validate_timex`.

**The boot-time vmemmap bump allocator (`mm/sparse-vmemmap.c`).** This covers:

- `__vmemmap_alloc_block_buf`, which carves size-aligned blocks out of the window `[vmemmap_buf, vmemmap_buf_end)` and falls back to the early memblock allocator;
- the window setup and teardown in `sparse_mem_maps_populate_node`.

Files:

- `fixed_point.dfy` (`FixedPoint`): the C arithmetic the engine relies on.
  - Shifts are powers of two. `>>` on an unsigned value is floor division, `<<` is multiplication, and `shift_right` shifts the magnitude and restores the sign, so it rounds toward zero.
  - `CDiv` and `CRem` are C's truncating `/` and `%`, used for `div_s64`, `div64_long` and `div_s64_rem`.
  - `clamp`, `min` and `max`.
- `ntp_defs.dfy` (`NtpDefs`): constants, the `STA_*` and `ADJ_*` bits, and `struct timex`.
  - A status or mode word is the set of its bits.
- `ntp_leap.dfy` (`NtpLeap`): the leap-second switch of `second_overflow` as a pure transition function, plus the insertion and deletion cycles it runs through.
- `ntp_control.dfy` (`NtpControl`): pure functions for the tick-length recompute, the per-tick phase chunk and slew, and the PLL/FLL controller.
- `ntp_validate.dfy` (`NtpValidate`): `ntp_validate_timex`.
- `ntp_state.dfy` (`Ntp`): the class `NtpState`, whose fields are the file-scope registers and whose methods update them in place. Each method is proved against the pure functions above.
- `vmemmap.dfy` (`SparseVmemmap`):
  - the class `Vmemmap`, holding the two window pointers and the vmemmap pte entries;
  - a stand-in `Memblock` for the early allocator;
  - the pure specification `WindowCarve` of the carve decision.

Constants that `ntp.c` takes from headers outside this model (`NTP_SCALE_SHIFT`, `MAXPHASE`, `MAXFREQ_SCALED`, `HZ`, `PAGE_SIZE`, `PMD_SIZE`, `sizeof(struct page)`, …) are declared without values. Their types carry only the assumptions the code needs:

- positivity;
- `MAXTC >= 2`, because the boot time constant is 2;
- the PLL shift `NTP_SCALE_SHIFT - 2 * (SHIFT_PLL + 2 + MAXTC)` and the FLL shift are non-negative.

The current time (`__ktime_get_real_seconds()`) is the parameter `now`. The two inject-offset checks of the timekeeping core are function parameters of `ValidateTimex`.

In three places the code does something other than its own comments, or the usual adjtimex semantics, suggest. The model follows the code:

- **ADJ_ADJTIME without ADJ_OFFSET_SINGLESHOT.** The comment speaks of single-shot use with other mode bits, but the code refuses any `ADJ_ADJTIME` request that lacks `ADJ_OFFSET_SINGLESHOT`, with `-EINVAL` rather than a permission error (`kernel/time/ntp.c:448-451`).
- **The ±10% tick band is never checked.** The comment guards against a quartz off by more than 10%, but every request outside the ADJ_ADJTIME branch that sets any mode bit is refused with `-EPERM` first (`kernel/time/ntp.c:454-465`). So the tick band can never decide the outcome: `TickBandUnreachable` states that the requested tick is irrelevant, and out-of-band ticks get `-EPERM`, not `-EINVAL`.
- **`ntp_clear` keeps the other status bits.** Its comment says it clears the NTP state, but it ORs `STA_UNSYNC` into `time_status` rather than replacing the word (`kernel/time/ntp.c:223`).

## Model

| member | source | states |
|---|---|---|
| FixedPoint.UnsignedShiftRight | kernel/time/ntp.c:139 | `x >> n` on an unsigned value is floor division by 2^n: r·2^n <= x < (r+1)·2^n, never more than x, and zero exactly when x < 2^n. |
| FixedPoint.ShiftRight | kernel/time/ntp.c:83-86 | shift_right keeps the sign, never grows the magnitude, and rounds toward zero: \|r\|·2^n <= \|x\| < (\|r\|+1)·2^n. It is zero exactly when \|x\| < 2^n. |
| FixedPoint.ShiftRightOdd | kernel/time/ntp.c:83-86 | shift_right is odd: shifting −x gives −(shift of x), so positive and negative offsets decay alike. |
| FixedPoint.CDiv | kernel/time/ntp.c:162 | C division truncates toward zero: \|q\| = \|a\| / \|b\|, the sign is the product of the signs, and it agrees with floor division on non-negative operands. |
| FixedPoint.CRem | kernel/time/ntp.c:283 | The remainder of div_s64_rem agrees with the mathematical remainder for a non-negative dividend. |
| FixedPoint.ClampAbs | kernel/time/ntp.c:176-183 | clamp(x, -b, b) has magnitude at most b, passes in-range values through and saturates out-of-range ones at the nearer bound. |
| FixedPoint.TruncS32 | kernel/time/ntp.c:430-431 | Storing a `long` into the `s32` *time_tai gives a value in [-2^31, 2^31) congruent to it modulo 2^32, and the value itself when it fits. |
| NtpLeap.InsertionSecond | kernel/time/ntp.c:282-284 | An insertion requested at second secs >= 0 is scheduled at the next midnight (a multiple of 86400) strictly after secs, at most a day away. |
| NtpLeap.DeletionSecond | kernel/time/ntp.c:287-289 | A deletion requested at secs >= 0 is scheduled at the next 23:59:59 (one second before a multiple of 86400) strictly after secs. |
| NtpLeap.LeapTransition | kernel/time/ntp.c:279-322 | The leap is in {-1, 0, +1}. -1 occurs exactly on INS→OOP at the scheduled second, and +1 exactly on DEL→WAIT, which resets next_leap to TIME_MAX. Withdrawing the INS/DEL bit cancels to OK with TIME_MAX. OOP→WAIT is unconditional. WAIT→OK happens only with both bits clear. OOP is entered exactly when -1 is returned. "No leap scheduled in OK/WAIT" is preserved. |
| NtpLeap.LeapRunSplit | kernel/time/ntp.c:279-322 | Running a+b ticks of the leap machine is running a ticks and then b more from where they ended. |
| NtpLeap.InsertionPending | kernel/time/ntp.c:290-300 | With STA_INS held, a scheduled insertion stays in TIME_INS until its second, then enters TIME_OOP returning -1. |
| NtpLeap.DeletionPending | kernel/time/ntp.c:302-313 | With STA_DEL held, a scheduled deletion stays in TIME_DEL until its second, then enters TIME_WAIT returning +1 with no leap left scheduled. |
| NtpLeap.InsertionCycle | kernel/time/ntp.c:279-322 | From TIME_OK with STA_INS held, the ticks up to one past the next midnight return -1 exactly once, at the midnight, and end in TIME_WAIT with TIME_MAX. |
| NtpLeap.DeletionCycle | kernel/time/ntp.c:279-322 | From TIME_OK with only STA_DEL held, the ticks up to the next 23:59:59 return +1 exactly once, at that second, and end in TIME_WAIT with TIME_MAX. |
| NtpControl.FrequencyRecompute | kernel/time/ntp.c:128-148 | tick_length_base is the scaled second split over NTP_INTERVAL_FREQ ticks, rounded down, and tick_nsec is the HZ tick unscaled. tick_length − tick_length_base is preserved, so the new base applies immediately. The inputs are untouched. |
| NtpControl.FrequencyRecomputeIdempotent | kernel/time/ntp.c:128-148 | Recomputing twice with nothing changed in between leaves tick_length, tick_length_base and tick_nsec as after once. |
| NtpControl.OffsetChunk | kernel/time/ntp.c:83-86 | The chunk has the offset's sign and at most its size, so the offset decays toward zero. It is zero exactly when \|offset\| < 2^(SHIFT_PLL+time_constant), from either side. |
| NtpControl.Slew | kernel/time/ntp.c:342-359 | time_adjust moves toward zero by at most MAX_TICKADJ without changing sign, and becomes 0 exactly when \|time_adjust\| <= MAX_TICKADJ. tick_length moves by ±MAX_TICKADJ_SCALED in the large cases and never by more. |
| NtpControl.FinalSlewBound | kernel/time/ntp.c:357-359 | The final partial slew step adds no more than MAX_TICKADJ_SCALED in magnitude. |
| NtpControl.SlewDrains | kernel/time/ntp.c:342-359 | An adjtime() slew of `adjust` usecs is drained (time_adjust reaches 0) after n ticks exactly when n·MAX_TICKADJ >= \|adjust\|. |
| NtpControl.ClampedOffset | kernel/time/ntp.c:174-184 | The sample has magnitude at most MAXPHASE and the input's sign. In-range samples pass through, converted to nsecs. Out-of-range ones saturate on both sides: at ±MAXPHASE for nsec samples, at ±min(USEC_PER_SEC·NSEC_PER_USEC, MAXPHASE) for usec samples beyond a second, and at ±MAXPHASE for usec samples within a second whose nsec value passes MAXPHASE. |
| NtpControl.FllAdjust | kernel/time/ntp.c:150-163 | The FLL contribution is zero unless secs >= MINSEC and (STA_FLL or secs > MAXSEC). Otherwise it has the offset's direction and at most its scaled size. |
| NtpControl.PllInterval | kernel/time/ntp.c:204-205 | The PLL interval is secs capped at 2^(SHIFT_PLL+1+time_constant). |
| NtpControl.PllAdjust | kernel/time/ntp.c:207-208 | Over a non-negative interval, the PLL contribution has the offset's direction, and it is zero for a zero offset or interval. |
| NtpControl.FrequencyUpdate | kernel/time/ntp.c:196-212 | The new frequency satisfies \|time_freq\| <= MAXFREQ_SCALED. It moves in the direction of the offset (negative feedback) and is unchanged for a zero offset or a frozen interval. |
| NtpControl.PhaseOffset | kernel/time/ntp.c:214 | time_offset has the sample's sign and is the scaled sample divided by NTP_INTERVAL_FREQ truncated toward zero: \|r\|·NTP_INTERVAL_FREQ <= \|scaled\| < (\|r\|+1)·NTP_INTERVAL_FREQ. |
| NtpValidate.ValidateTimex | kernel/time/ntp.c:446-495 | ADJTIME without SINGLESHOT gives -EINVAL, and without READONLY -EPERM. Any other request with mode bits gives -EPERM, and an empty request succeeds. -EPERM and success each hold exactly in the stated cases. |
| NtpValidate.ValidateFields | kernel/time/ntp.c:468-494 | The closing checks never give -EPERM. They succeed exactly when the SETOFFSET time is injectable and, on 64-bit, freq·PPM_SCALE fits a long long. |
| NtpValidate.FreqScalableExact | kernel/time/ntp.c:487-492 | The bound check `LLONG_MIN / PPM_SCALE <= freq <= LLONG_MAX / PPM_SCALE`, in C's truncating division, holds exactly when freq·PPM_SCALE lies in [LLONG_MIN, LLONG_MAX]. |
| NtpValidate.TickBandUnreachable | kernel/time/ntp.c:454-465 | The 10% tick-band check never decides the outcome: the verdict does not depend on the requested tick. |
| Ntp.TimeConstantOf | kernel/time/ntp.c:422-427 | After ADJ_TIMECONST, 0 <= time_constant <= MAXTC. A microsecond request is offset by 4, and in-range values are kept. |
| Ntp.ProcessedStatus | kernel/time/ntp.c:373-392 | After ADJ_STATUS, the bits outside STA_RONLY equal the request's. The bits inside are kept, or reset to just STA_UNSYNC when the PLL is turned off. |
| Ntp.StatusAfterModes | kernel/time/ntp.c:399-406 | After the ADJ_STATUS, ADJ_NANO and ADJ_MICRO steps, every bit but STA_NANO is what ADJ_STATUS left (or the old word). STA_NANO is set iff ADJ_MICRO is absent and ADJ_NANO or the merged word has it. A request with none of the three bits leaves the word unchanged. |
| Ntp.NtpState.constructor | kernel/time/ntp.c:48-77 | The static initial values followed by ntp_init (ntp_clear). The invariant holds, the state is TIME_OK, the status is UNSYNC, and tick_length equals the recomputed base. |
| Ntp.ReportedLeapArrives | kernel/time/ntp.c:248-256 | A leap second t reported by ntp_get_next_leap is delivered by the ticks while STA_INS stays set: each tick before t keeps TIME_INS and returns 0, and the tick at t enters TIME_OOP and returns -1. |
| Ntp.NtpState.UpdateFrequency | kernel/time/ntp.c:128-148 | The registers become FrequencyRecompute of the old ones, and only tick_nsec, tick_length and tick_length_base change. |
| Ntp.NtpState.UpdateOffsetFll | kernel/time/ntp.c:150-163 | STA_MODE is set iff the FLL engages, no other status bit changes, and the FLL contribution is returned. |
| Ntp.NtpState.UpdateOffset | kernel/time/ntp.c:165-215 | A no-op without STA_PLL. Otherwise time_reftime = now, STA_MODE follows the FLL, time_freq becomes FrequencyUpdate (so \|time_freq\| <= MAXFREQ_SCALED), and time_offset becomes PhaseOffset of the clamped sample. A sample never changes ntp_synced or is_error_status. |
| Ntp.NtpState.SteerFrequency | kernel/time/ntp.c:196-212 | time_freq becomes FrequencyUpdate of the old frequency, the sample and the interval, so \|time_freq\| <= MAXFREQ_SCALED and it moves in the direction of the offset. STA_MODE follows the FLL decision, and no other status bit changes. |
| Ntp.NtpState.Clear | kernel/time/ntp.c:220-235 | The slew and phase are stopped, STA_UNSYNC is added, the error bounds are reset to NTP_PHASE_LIMIT, no leap is scheduled, and tick_length equals the recomputed base. Afterwards ntp_synced is false and is_error_status (ntp.c:93-96) holds. |
| Ntp.NtpState.SecondOverflow | kernel/time/ntp.c:268-363 | The leap machine takes one LeapTransition. time_maxerror grows by MAXFREQ/NSEC_PER_USEC and is capped at NTP_PHASE_LIMIT, and STA_UNSYNC is set exactly when the cap fires. time_offset loses exactly the chunk added to tick_length, and tick_length = base + chunk + the Slew step. So for ntp_synced (ntp.c:115-118), a tick never resynchronizes an unsynchronized clock, a tick on which the cap fires leaves it unsynchronized, and an error status stays one. |
| Ntp.NtpState.GrowMaxerror | kernel/time/ntp.c:325-330 | time_maxerror grows by MAXFREQ/NSEC_PER_USEC and saturates at NTP_PHASE_LIMIT. STA_UNSYNC is added exactly when it saturates and nothing else in the status changes, so the step never resynchronizes the clock and keeps an error status. |
| Ntp.NtpState.NextTickLength | kernel/time/ntp.c:332-359 | time_offset loses exactly the chunk added to tick_length, and tick_length = tick_length_base + chunk + the Slew step of time_adjust, with time_adjust left at what that step leaves. |
| Ntp.NtpState.ProcessAdjStatus | kernel/time/ntp.c:373-393 | The status becomes ProcessedStatus. Turning the PLL off resets the state to TIME_OK and next_leap to TIME_MAX, and turning it on restarts time_reftime. |
| Ntp.NtpState.ProcessStatusModes | kernel/time/ntp.c:399-406 | The status becomes StatusAfterModes of the old word and the request. A request that turns the PLL off puts time_state to TIME_OK and ntp_next_leap_sec to TIME_MAX, one that turns it on sets time_reftime to now, and otherwise those three are unchanged. |
| Ntp.NtpState.ProcessValueModes | kernel/time/ntp.c:408-428 | ADJ_FREQUENCY stores freq·PPM_SCALE clamped to ±MAXFREQ_SCALED, ADJ_MAXERROR and ADJ_ESTERROR store the request, and ADJ_TIMECONST stores TimeConstantOf in the resolution now in force. |
| Ntp.NtpState.ProcessOffsetTickModes | kernel/time/ntp.c:433-440 | With ADJ_OFFSET and STA_PLL the sample reaches the controller with UpdateOffset's full effect (time_reftime, STA_MODE, time_freq, time_offset). Otherwise status, reftime, frequency and offset are unchanged. ADJ_TICK stores tick_usec, and any of TICK/FREQUENCY/OFFSET recomputes the tick length from the new registers while keeping tick_length − tick_length_base. |
| Ntp.NtpState.ProcessAdjtimexModes | kernel/time/ntp.c:395-441 | The whole request in source order. time_state and ntp_next_leap_sec follow the ADJ_STATUS reset, and the error bounds are as requested. The time constant is taken in the resolution StatusAfterModes leaves. An offset sample is taken under that status, the reference time ADJ_STATUS left, the frequency ADJ_FREQUENCY set and the new time constant. Without one, status, reftime, frequency and offset are what the earlier steps left. *time_tai receives the s32 truncation of the constant only for ADJ_TAI with a positive constant. |
| SparseVmemmap.Align | mm/sparse-vmemmap.c:65 | ALIGN(x, a) is the least multiple of a that is at least x: a multiple of a in [x, x + a), and x itself when x is already aligned. |
| SparseVmemmap.SectionMap | mm/sparse-vmemmap.c:175-177 | A section's map address lies in the memory map, at or above its base. |
| SparseVmemmap.SectionMapStep | mm/sparse-vmemmap.c:175-177 | Section pnum+1's struct pages start exactly where section pnum's PAGES_PER_SECTION struct pages end. |
| SparseVmemmap.SectionMapsDisjoint | mm/sparse-vmemmap.c:175-177 | The struct-page ranges of two different sections never overlap. |
| SparseVmemmap.PageOf | mm/sparse-vmemmap.c:148 | The page number of an address: the page that starts at its multiple of PAGE_SIZE holds the address. |
| SparseVmemmap.PageOfStep | mm/sparse-vmemmap.c:146 | Stepping the address by k pages steps its page number by exactly k. |
| SparseVmemmap.WalkedPrefix | mm/sparse-vmemmap.c:146 | When the walk stops after k steps, the pages it touched are exactly the k page numbers from the start's page on. |
| SparseVmemmap.SectionsStep | mm/sparse-vmemmap.c:206-211 | Backing a present section pnum extends the populated range [pnum_begin, pnum) to [pnum_begin, pnum + 1). |
| SparseVmemmap.WindowCarve | mm/sparse-vmemmap.c:57-72 | The fallback is taken exactly when there is no window or the aligned block would pass vmemmap_buf_end. A carve is size-aligned, at least the old vmemmap_buf, below it plus size, and inside the window. |
| SparseVmemmap.AlignedWindowFits | mm/sparse-vmemmap.c:57-72 | A window aligned to `size` with room for n blocks serves all n requests itself, back to back from its start, with no fallback. |
| SparseVmemmap.Memblock.AllocTryNid | mm/sparse-vmemmap.c:39-48 | The early allocator never returns NULL (BUG_ON) and aligns as asked. The stand-in hands out memory above its previous top, which is how freshness is expressed. |
| SparseVmemmap.Memblock.FreeEarly | mm/sparse-vmemmap.c:220-221 | The freed range is recorded. |
| SparseVmemmap.Vmemmap.constructor | mm/sparse-vmemmap.c:36-37 | The window starts closed (both pointers NULL), with the invariant established: issued blocks are pairwise disjoint and outside the window, and every pte maps a PAGE_SIZE block that was issued. |
| SparseVmemmap.Vmemmap.AllocBlock | mm/sparse-vmemmap.c:50-54 | vmemmap_alloc_block takes a size-aligned, non-NULL block from memblock, disjoint from every block issued before. |
| SparseVmemmap.Vmemmap.AllocBlockBuf | mm/sparse-vmemmap.c:57-72 | It follows WindowCarve. A carve advances vmemmap_buf to the end of the block it hands out and leaves memblock alone, while a fallback leaves the window untouched. The block is non-NULL, size-aligned and disjoint from every block handed out before. |
| SparseVmemmap.Vmemmap.PtePopulate | mm/sparse-vmemmap.c:87-99 | The page holding addr (page number PageOf(addr), as pte_offset_kernel selects it) ends up with a pte. Without one it gets a fresh PAGE_SIZE block from the window allocator, recorded as the newest issued block; with one it is left as it is, and no other pte changes. Every pte still maps an issued block. |
| SparseVmemmap.Vmemmap.PopulateBasepages | mm/sparse-vmemmap.c:137-163 | Every page touched by the PAGE_SIZE steps from start below end, counted by page number, gets a pte. Existing entries are kept, and no other page gains one. |
| SparseVmemmap.Vmemmap.WalkOne | mm/sparse-vmemmap.c:146-160 | One step of the page walk: the k-th page from the first one gets a pte, the pages walked so far keep theirs, and no page outside them gains one. |
| SparseVmemmap.Vmemmap.SectionPopulate | mm/sparse-vmemmap.c:168-183 | It returns the section's map address and backs every page of its struct-page range. Existing ptes are kept, and only pages of that range gain one. vmemmap_buf only moves up, to the end of a block carved during the call. |
| SparseVmemmap.Vmemmap.PopulateNode | mm/sparse-vmemmap.c:185-225 | It opens a PMD-aligned window of map_count PMD-rounded sections, and records and backs every present section in [pnum_begin, pnum_end) without touching other map_map slots. Existing ptes are kept, and only pages of present sections in the range gain one. It then gives back exactly one block and closes the window. That block ends at the window end, starts at the window start or at the end of a block carved from the window during the call, and overlaps no block handed out, so no page any pte maps. |
| SparseVmemmap.Vmemmap.PopulateSections | mm/sparse-vmemmap.c:203-216 | Every present section in [pnum_begin, pnum_end) gets its map address in map_map and every page of it backed. Other map_map slots are unchanged, existing ptes are kept, and only pages of present sections in the range gain one. vmemmap_buf only moves up, to the end of a carved block. |
| SparseVmemmap.Vmemmap.PopulateOne | mm/sparse-vmemmap.c:206-211 | One step of the section loop for a present section pnum: map_map[pnum] gets its map address and nothing else in map_map changes, and the sections populated so far grow to include pnum. |
| SparseVmemmap.Vmemmap.RecordSection | mm/sparse-vmemmap.c:209 | One present section gets its map address in map_map[pnum] and every page of it backed. All other map_map slots and all existing ptes are kept, only pages of that section gain one, and vmemmap_buf only moves up, to the end of a carved block. |
| SparseVmemmap.Vmemmap.CloseWindow | mm/sparse-vmemmap.c:218-224 | The rest of the window [vmemmap_buf, vmemmap_buf_end) is given back with memblock_free_early, and it overlaps no block handed out and no page any pte maps. Both pointers become NULL. |

## Left out

- The PPS stubs, `pps_fill_timex` and the `printk` leap notices (`kernel/time/ntp.c:88-109`, 298-299, 310-311): they have no effect on the registers.
- `update_persistent_clock` (`kernel/time/ntp.c:365-368`): a weak stub returning `-ENODEV`.
- `ntp_tick_length` is a plain read of `tick_length`, modelled as `Ntp.NtpState.TickLength`. `ntp_init` is folded into the constructor.
- `ktime_set` is replaced by the datatype `NextLeap`: a leap second or none (KTIME_MAX).
- 64-bit fixed-width behaviour: the registers are unbounded integers, so `u64` wrap-around in `tick_length` and `second_length` is not modelled, and neither are left shifts of negative values (taken as multiplication by 2^n).
- The timekeeping locks: every operation runs alone.
- `ntp_update_offset` reads the clock twice, and `process_adj_status` reads it once more when a request turns STA_PLL on (`kernel/time/ntp.c:388`). The model reads it once per request (`now`), so all reads see the same second. In particular, a request that turns the PLL on and carries an offset sees zero seconds since the reference time, where the kernel may see one if a second boundary falls between the reads.
- The `shift_right` macro comes from the architecture's `timex.h`, which is not part of this model. It is taken as Linux defines it: the magnitude of a negative value is shifted and the sign put back.
- Ntp.NtpState.SecondOverflow: `time_maxerror` is a signed long, and after an `ADJ_MAXERROR` near `LONG_MAX` (`kernel/time/ntp.c:416-417`) the kernel's increment at `kernel/time/ntp.c:326` wraps negative, so it neither caps the bound nor sets STA_UNSYNC. The model's register is unbounded, so the bound always saturates and the clock is unsynchronized; the "cap fires ==> not synced" clause holds for the model, not for that wrapped case.
- Ntp.NtpState.GrowMaxerror: the same unbounded `time_maxerror` as for `SecondOverflow`, so the signed-long wrap near `LONG_MAX` is not modelled.
- The `ADJ_*` bit values are not part of this model, and each flag is its own bit. Composite masks such as Linux's `ADJ_OFFSET_SINGLESHOT`, which includes `ADJ_OFFSET`'s bit, are therefore not modelled: a request that sets the composite is not also seen as setting its parts.
- The page-table levels above the pte (`vmemmap_pgd/pud/pmd_populate`) and the arch `vmemmap_populate` are not modelled: a section is populated at the pte level only. Those allocations come straight from memblock and never touch the window.
- `vmemmap_verify` is compiled out, and the `section_mem_map = 0` error path of `sparse_mem_maps_populate_node` is not modelled. Population cannot fail in the model, because the early allocator panics rather than returning NULL.
- The memblock allocator itself: `Memblock` is a bump-pointer stand-in. The vmemmap code relies on non-NULL, aligned memory that was not handed out before. Its node and goal arguments (`__pa(MAX_DMA_ADDRESS)`) are ignored, and a freed range is only recorded, never reused.
- SparseVmemmap.Memblock.AllocTryNid: returns memory above everything it handed out before. This increasing order belongs to the stand-in, not to memblock, which may return any free range. The "window start at or above the old top" clause of `PopulateNode` inherits it.
- SparseVmemmap.Vmemmap.PopulateNode: does not state that populating a present section uses window space, so the block given back is not shown to be shorter than the window. That would need the page walk's alignment, and the facts that `PMD_SIZE` is a multiple of `PAGE_SIZE` and that the section's ptes start out empty.
- `__pa` is the identity: physical and virtual addresses coincide in the model.
- `SparseVmemmap.Align` is round-up-to-a-multiple, which equals the kernel's mask-based `ALIGN` for the power-of-two sizes the callers pass (`PAGE_SIZE`, `PMD_SIZE`). Non-power-of-two alignments are not modelled.
- `include/lego/siginfo.h` and `kernel/irq/debug.h` are not part of this model: the first only declares structure layout and constants, the second only prints.
