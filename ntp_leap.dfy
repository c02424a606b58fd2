/**
 * The leap-second state machine of second_overflow (kernel/time/ntp.c),
 * lifted out as a pure transition function, with the insertion and
 * deletion cycles it runs through when the status bits stay put.
 */
module NtpLeap {
  import opened FixedPoint
  import opened NtpDefs

  /** time_state. */
  datatype TimeState = TimeOk | TimeIns | TimeDel | TimeOop | TimeWait

  /** What one tick does to the machine: the new time_state, the new ntp_next_leap_sec and the leap returned. */
  datatype LeapStep = LeapStep(state: TimeState, nextLeapSec: int, leap: int)

  /** The second at which an insertion requested at `secs` happens: the next midnight strictly after it. */
  function InsertionSecond(secs: int): (r: int)
    ensures secs >= 0 ==> r % SECS_PER_DAY == 0 && secs < r <= secs + SECS_PER_DAY
  {
    secs + SECS_PER_DAY - CRem(secs, SECS_PER_DAY)
  }

  /** The second deleted when a deletion is requested at `secs`: the next 23:59:59 strictly after it. */
  function DeletionSecond(secs: int): (r: int)
    ensures secs >= 0 ==> (r + 1) % SECS_PER_DAY == 0 && secs < r <= secs + SECS_PER_DAY
  {
    secs + SECS_PER_DAY - CRem(secs + 1, SECS_PER_DAY)
  }

  /** The switch on time_state at the head of second_overflow, for the tick at UTC second `secs`. */
  function LeapTransition(state: TimeState, status: set<Status>, secs: int, nextLeapSec: int): (r: LeapStep)
    ensures r.leap == -1 || r.leap == 0 || r.leap == 1
    // -1 (clock set back) exactly when an insertion reaches its second, entering TIME_OOP
    ensures r.leap == -1 <==> state == TimeIns && StaIns in status && secs == nextLeapSec
    ensures r.leap == -1 ==> r.state == TimeOop && r.nextLeapSec == nextLeapSec
    // +1 (clock set ahead) exactly when a deletion reaches its second, going straight to TIME_WAIT
    ensures r.leap == 1 <==> state == TimeDel && StaDel in status && secs == nextLeapSec
    ensures r.leap == 1 ==> r.state == TimeWait && r.nextLeapSec == TIME_MAX
    // scheduling from TIME_OK; STA_INS wins over STA_DEL
    ensures state == TimeOk && StaIns in status ==>
              r.state == TimeIns && r.nextLeapSec == InsertionSecond(secs)
    ensures state == TimeOk && StaIns !in status && StaDel in status ==>
              r.state == TimeDel && r.nextLeapSec == DeletionSecond(secs)
    ensures state == TimeOk && StaIns !in status && StaDel !in status ==>
              r == LeapStep(TimeOk, nextLeapSec, 0)
    // withdrawing the request cancels the leap
    ensures (state == TimeIns && StaIns !in status) || (state == TimeDel && StaDel !in status) ==>
              r == LeapStep(TimeOk, TIME_MAX, 0)
    // a pending leap waits for its second
    ensures state in {TimeIns, TimeDel} && secs != nextLeapSec ==> r.state in {state, TimeOk}
    // the inserted second lasts one tick
    ensures state == TimeOop ==> r == LeapStep(TimeWait, TIME_MAX, 0)
    // TIME_WAIT is left only once both requests are withdrawn
    ensures state == TimeWait ==>
              r == LeapStep(if StaIns !in status && StaDel !in status then TimeOk else TimeWait, nextLeapSec, 0)
    // the only ways into TIME_OOP and TIME_WAIT
    ensures r.state == TimeOop <==> r.leap == -1
    ensures r.state == TimeWait ==> state in {TimeOop, TimeWait} || r.leap == 1
    // no leap is left scheduled outside TIME_INS, TIME_DEL and TIME_OOP
    ensures (state in {TimeOk, TimeWait} ==> nextLeapSec == TIME_MAX) ==>
              (r.state in {TimeOk, TimeWait} ==> r.nextLeapSec == TIME_MAX)
  {
    match state
    case TimeOk =>
      if StaIns in status then LeapStep(TimeIns, InsertionSecond(secs), 0)
      else if StaDel in status then LeapStep(TimeDel, DeletionSecond(secs), 0)
      else LeapStep(TimeOk, nextLeapSec, 0)
    case TimeIns =>
      if StaIns !in status then LeapStep(TimeOk, TIME_MAX, 0)
      else if secs == nextLeapSec then LeapStep(TimeOop, nextLeapSec, -1)
      else LeapStep(TimeIns, nextLeapSec, 0)
    case TimeDel =>
      if StaDel !in status then LeapStep(TimeOk, TIME_MAX, 0)
      else if secs == nextLeapSec then LeapStep(TimeWait, TIME_MAX, 1)
      else LeapStep(TimeDel, nextLeapSec, 0)
    case TimeOop =>
      LeapStep(TimeWait, TIME_MAX, 0)
    case TimeWait =>
      if StaIns !in status && StaDel !in status then LeapStep(TimeOk, nextLeapSec, 0)
      else LeapStep(TimeWait, nextLeapSec, 0)
  }

  /** The steps of `n` ticks at seconds secs, secs + 1, ... with the status bits held at `status`. */
  function LeapRun(from: LeapStep, status: set<Status>, secs: int, n: nat): (run: seq<LeapStep>)
    ensures |run| == n
    decreases n
  {
    if n == 0 then []
    else
      var next := LeapTransition(from.state, status, secs, from.nextLeapSec);
      [next] + LeapRun(next, status, secs + 1, n - 1)
  }

  /** Where a run that started at `from` ends. */
  function Final(from: LeapStep, run: seq<LeapStep>): (last: LeapStep)
  {
    if run == [] then from else run[|run| - 1]
  }

  /** Running a + b ticks is running a ticks and then b more. */
  lemma {:induction false} LeapRunSplit(from: LeapStep, status: set<Status>, secs: int, a: nat, b: nat)
    ensures LeapRun(from, status, secs, a + b) ==
            LeapRun(from, status, secs, a) +
            LeapRun(Final(from, LeapRun(from, status, secs, a)), status, secs + a, b)
    decreases a
  {
    if a > 0 {
      var next := LeapTransition(from.state, status, secs, from.nextLeapSec);
      var rest := LeapRun(next, status, secs + 1, a - 1);
      assert LeapRun(from, status, secs, a) == [next] + rest;
      assert LeapRun(from, status, secs, a + b) == [next] + LeapRun(next, status, secs + 1, (a - 1) + b);
      LeapRunSplit(next, status, secs + 1, a - 1, b);
      assert Final(from, [next] + rest) == Final(next, rest);
    }
  }

  /** A scheduled insertion waits in TIME_INS until its second, then enters TIME_OOP returning -1. */
  lemma {:induction false} InsertionPending(status: set<Status>, leapSec: int, secs: int)
    requires StaIns in status && secs <= leapSec
    ensures var run := LeapRun(LeapStep(TimeIns, leapSec, 0), status, secs, leapSec - secs + 1);
            && (forall i :: 0 <= i < leapSec - secs ==> run[i] == LeapStep(TimeIns, leapSec, 0))
            && run[leapSec - secs] == LeapStep(TimeOop, leapSec, -1)
    decreases leapSec - secs
  {
    if secs < leapSec {
      InsertionPending(status, leapSec, secs + 1);
    }
  }

  /** A scheduled deletion waits in TIME_DEL until its second, then enters TIME_WAIT returning +1. */
  lemma {:induction false} DeletionPending(status: set<Status>, leapSec: int, secs: int)
    requires StaDel in status && secs <= leapSec
    ensures var run := LeapRun(LeapStep(TimeDel, leapSec, 0), status, secs, leapSec - secs + 1);
            && (forall i :: 0 <= i < leapSec - secs ==> run[i] == LeapStep(TimeDel, leapSec, 0))
            && run[leapSec - secs] == LeapStep(TimeWait, TIME_MAX, 1)
    decreases leapSec - secs
  {
    if secs < leapSec {
      DeletionPending(status, leapSec, secs + 1);
    }
  }

  /**
   * The insertion cycle: from TIME_OK with STA_INS held set from second `secs` on,
   * the ticks up to one past the next midnight return -1 exactly once, at the
   * midnight, and leave the machine in TIME_WAIT with no leap scheduled.
   */
  lemma InsertionCycle(status: set<Status>, secs: int)
    requires StaIns in status && secs >= 0
    ensures var leapSec := InsertionSecond(secs);
            var run := LeapRun(LeapStep(TimeOk, TIME_MAX, 0), status, secs, leapSec - secs + 2);
            && (forall i :: 0 <= i < |run| ==> run[i].leap == (if secs + i == leapSec then -1 else 0))
            && Final(LeapStep(TimeOk, TIME_MAX, 0), run) == LeapStep(TimeWait, TIME_MAX, 0)
  {
    var leapSec := InsertionSecond(secs);
    var start := LeapStep(TimeOk, TIME_MAX, 0);
    var first := LeapStep(TimeIns, leapSec, 0);
    var n := leapSec - secs;
    var run := LeapRun(start, status, secs, n + 2);
    assert run == [first] + LeapRun(first, status, secs + 1, n + 1);
    LeapRunSplit(first, status, secs + 1, n, 1);
    InsertionPending(status, leapSec, secs + 1);
    var pending := LeapRun(first, status, secs + 1, n);
    assert Final(first, pending) == LeapStep(TimeOop, leapSec, -1);
    assert run == [first] + pending + [LeapStep(TimeWait, TIME_MAX, 0)];
  }

  /**
   * The deletion cycle: from TIME_OK with STA_DEL (and not STA_INS) held from
   * second `secs` on, the ticks up to the next 23:59:59 return +1 exactly once,
   * at that second, and leave the machine in TIME_WAIT with no leap scheduled.
   */
  lemma DeletionCycle(status: set<Status>, secs: int)
    requires StaDel in status && StaIns !in status && secs >= 0
    ensures var leapSec := DeletionSecond(secs);
            var run := LeapRun(LeapStep(TimeOk, TIME_MAX, 0), status, secs, leapSec - secs + 1);
            && (forall i :: 0 <= i < |run| ==> run[i].leap == (if secs + i == leapSec then 1 else 0))
            && Final(LeapStep(TimeOk, TIME_MAX, 0), run) == LeapStep(TimeWait, TIME_MAX, 1)
  {
    var leapSec := DeletionSecond(secs);
    var start := LeapStep(TimeOk, TIME_MAX, 0);
    var first := LeapStep(TimeDel, leapSec, 0);
    var n := leapSec - secs;
    var run := LeapRun(start, status, secs, n + 1);
    assert run == [first] + LeapRun(first, status, secs + 1, n);
    DeletionPending(status, leapSec, secs + 1);
  }
}
