/**
  Process-management syscalls of the ch4 kernel: yield, get_time,
  set_priority, mmap, munmap and task_info.

  What lies outside this layer enters as parameters: the current time in
  microseconds (the clock sample), the current task's control-block fields,
  and the two area operations of the task manager, which are uninterpreted
  functions here. A write through a translated user pointer is modelled twice:
  as the record that is stored, and as a method that stores it into a slot
  object standing for the translated destination.
 */
module Process {
  import opened Machine
  import opened Config

  /** Scheduling state of a task, owned by the task manager and only copied here. */
  datatype TaskStatus = UnInit | Ready | Running | Exited

  /** A task's per-syscall invocation counters, `[u32; MAX_SYSCALL_NUM]`. */
  type SyscallTimes = s: seq<u32> | |s| == MAX_SYSCALL_NUM
    witness seq(MAX_SYSCALL_NUM, _ => 0)

  /** The record `sys_get_time` stores: seconds and the microseconds left over. */
  datatype TimeVal = TimeVal(sec: usize, usec: usize)

  /** The record `sys_task_info` stores. `time` is in milliseconds. */
  datatype TaskInfo = TaskInfo(status: TaskStatus, syscallTimes: SyscallTimes, time: usize)

  /** The fields of the current task's control block that `sys_task_info` reads. */
  datatype TaskSnapshot = TaskSnapshot(
    taskStatus: TaskStatus,
    taskSyscallTimes: SyscallTimes,
    taskStartTime: usize)

  const MICROS_PER_SEC: usize := 1_000_000
  const MICROS_PER_MILLI: usize := 1000

  /** `task_map_an_area(start, len, port)` of the task manager. */
  type MapArea = (usize, usize, usize) -> isize

  /** `task_unmap_an_area(start, len)` of the task manager. */
  type UnmapArea = (usize, usize) -> isize

  // ---------------------------------------------------------------------------
  // sys_yield, sys_set_priority

  /** After the current task has been suspended and resumed, yield reports success. */
  function SysYield(): (r: isize)
    ensures r == 0
  {
    0
  }

  /** Priorities are not supported at this stage: every request is refused. */
  function SysSetPriority(prio: isize): (r: isize)
    ensures r == -1
  {
    -1
  }

  // ---------------------------------------------------------------------------
  // sys_get_time

  /** The number of microseconds a time value stands for. */
  function Micros(tv: TimeVal): nat
  {
    tv.sec as nat * MICROS_PER_SEC as nat + tv.usec as nat
  }

  /** A time value whose sub-second part is less than one second. */
  predicate Normalized(tv: TimeVal)
  {
    tv.usec < MICROS_PER_SEC
  }

  /** The time value stored for a clock sample of `us` microseconds: lossless and normalized. */
  function TimeValOf(us: usize): (tv: TimeVal)
    ensures Normalized(tv)
    ensures Micros(tv) == us as nat
  {
    TimeVal(us / MICROS_PER_SEC, us % MICROS_PER_SEC)
  }

  /** A normalized time value is the one stored for the microseconds it stands for. */
  lemma TimeValOfInverse(tv: TimeVal)
    requires Normalized(tv) && Micros(tv) < WORD_MODULUS
    ensures TimeValOf(Micros(tv) as usize) == tv
  {
    var us := Micros(tv);
    ModOfDecomposition(us, MICROS_PER_SEC as int, tv.sec as int, tv.usec as int);
  }

  /** The split is the only normalized time value for a sample. */
  lemma TimeValOfUnique(us: usize, tv: TimeVal)
    requires Normalized(tv) && Micros(tv) == us as nat
    ensures tv == TimeValOf(us)
  {
    TimeValOfInverse(tv);
  }

  /** A later clock sample never gives an earlier time value. */
  lemma TimeValOfMonotone(us1: usize, us2: usize)
    requires us1 <= us2
    ensures TimeValOf(us1).sec < TimeValOf(us2).sec
         || (TimeValOf(us1).sec == TimeValOf(us2).sec && TimeValOf(us1).usec <= TimeValOf(us2).usec)
  {
  }

  /** The destination of a `*mut TimeVal` after translation. */
  class TimeValSlot {
    var sec: usize
    var usec: usize

    constructor (v: TimeVal)
      ensures Value() == v
    {
      sec, usec := v.sec, v.usec;
    }

    function Value(): TimeVal
      reads this
    {
      TimeVal(sec, usec)
    }
  }

  /**
    `sys_get_time(ts, tz)`: `now` is the clock sample in microseconds and `ts`
    the translated destination; `tz` is ignored.
   */
  method SysGetTime(ts: TimeValSlot, tz: usize, now: usize) returns (r: isize)
    modifies ts
    ensures ts.Value() == TimeValOf(now)
    ensures r == 0
  {
    var v := TimeVal(now / MICROS_PER_SEC, now % MICROS_PER_SEC);
    ts.sec, ts.usec := v.sec, v.usec;
    r := 0;
  }

  // ---------------------------------------------------------------------------
  // sys_mmap, sys_munmap

  /** The requests `sys_mmap` hands on: a page-aligned start and a non-empty subset of R|W|X. */
  predicate MmapArgsValid(start: usize, port: usize)
  {
    start % PAGE_SIZE == 0 && 1 <= port <= 7
  }

  /**
    What the two permission guards of `sys_mmap` test, in arithmetic terms:
    `port & !0x7` is non-zero exactly for values above 7, and below 8
    `port & 0x7` is zero only for 0.
   */
  lemma PermissionGuards(port: usize)
    ensures And(port, Not(0x7)) != 0 <==> port >= 8
    ensures port < 8 ==> (And(port, 0x7) == 0 <==> port == 0)
  {
    assert And(port, Not(0x7)) != 0 <==> port >= 8 by {
      AndNotSeven(port);
    }
    assert port < 8 ==> (And(port, 0x7) == 0 <==> port == 0) by {
      AndSeven(port);
    }
  }

  /**
    `sys_mmap(start, len, port)`: three guards in order (alignment, no bit
    outside `0x7`, at least one of R/W/X), then the task manager's map.
   */
  function SysMmap(start: usize, len: usize, port: usize, mapArea: MapArea): (r: isize)
    ensures start % PAGE_SIZE != 0 ==> r == -1
    ensures port >= 8 ==> r == -1
    ensures port == 0 ==> r == -1
    ensures r == if MmapArgsValid(start, port) then mapArea(start, len, port) else -1
  {
    PermissionGuards(port);
    if start % PAGE_SIZE != 0 then -1
    else if And(port, Not(0x7)) != 0 then -1
    else if And(port, 0x7) == 0 then -1
    else mapArea(start, len, port)
  }

  /**
    The task manager's map is reached exactly when all three guards pass:
    then `sys_mmap` returns whatever it returns, whichever map is installed;
    otherwise some map's answer differs from the -1 `sys_mmap` gives.
   */
  lemma MmapReachesMapIff(start: usize, len: usize, port: usize)
    ensures (forall f: MapArea :: SysMmap(start, len, port, f) == f(start, len, port))
        <==> MmapArgsValid(start, port)
  {
    if !MmapArgsValid(start, port) {
      var succeed: MapArea := (s, l, p) => 0;
      assert SysMmap(start, len, port, succeed) != succeed(start, len, port);
    }
  }

  /** A refused request does not depend on the length or on what the task manager would do. */
  lemma MmapRefusalIgnoresMap(start: usize, len1: usize, len2: usize, port: usize, f: MapArea, g: MapArea)
    requires !MmapArgsValid(start, port)
    ensures SysMmap(start, len1, port, f) == SysMmap(start, len2, port, g) == -1
  {
  }

  /** `sys_munmap(start, len)`: handed to the task manager's unmap with no check of its own. */
  function SysMunmap(start: usize, len: usize, unmapArea: UnmapArea): (r: isize)
    ensures r == unmapArea(start, len)
  {
    unmapArea(start, len)
  }

  /**
    Unlike `sys_mmap`, `sys_munmap` refuses nothing by itself: a misaligned
    start reaches the task manager and can succeed.
   */
  lemma MunmapAddsNoAlignmentCheck(start: usize, len: usize, port: usize)
    requires start % PAGE_SIZE != 0
    ensures SysMunmap(start, len, (s, l) => 0) == 0
    ensures SysMmap(start, len, port, (s, l, p) => 0) == -1
  {
  }

  // ---------------------------------------------------------------------------
  // sys_task_info

  /** Milliseconds since task start, computed as `curr/1000 - start/1000` on `usize`. */
  function ElapsedMs(curr: usize, start: usize): (ms: usize)
    ensures start / 1000 <= curr / 1000 ==> ms as int == curr as int / 1000 - start as int / 1000
  {
    WrappingSub(curr / MICROS_PER_MILLI, start / MICROS_PER_MILLI)
  }

  /**
    For a start not later than the earlier current time, the elapsed time
    never decreases as the current time grows.
   */
  lemma ElapsedMsMonotone(start: usize, curr1: usize, curr2: usize)
    requires start <= curr1 <= curr2
    ensures ElapsedMs(curr1, start) <= ElapsedMs(curr2, start)
  {
  }

  /**
    When `start <= curr`: each timestamp is truncated to whole milliseconds
    before the subtraction, so the result is the exact elapsed time in
    milliseconds, or one more.
   */
  lemma ElapsedMsWithinOneMilli(start: usize, curr: usize)
    requires start <= curr
    ensures (curr - start) as int / 1000 <= ElapsedMs(curr, start) as int <= (curr - start) as int / 1000 + 1
  {
    var a, x := curr as int / 1000, curr as int % 1000;
    var b, y := start as int / 1000, start as int % 1000;
    var d := (curr - start) as int;
    if x >= y {
      ModOfDecomposition(d, 1000, a - b, x - y);
    } else {
      ModOfDecomposition(d, 1000, a - b - 1, x - y + 1000);
    }
  }

  /**
    When the start falls in a later millisecond than the current time, the
    result is `curr/1000 - start/1000 + 2^64`. A start later than `curr` but
    in the same millisecond gives 0 and does not wrap.
   */
  lemma ElapsedMsWrapsBackwards(start: usize, curr: usize)
    requires curr / 1000 < start / 1000
    ensures ElapsedMs(curr, start) as int == curr as int / 1000 - start as int / 1000 + WORD_MODULUS
  {
  }

  /** The record `sys_task_info` stores for the current task at time `curr`. */
  function TaskInfoOf(task: TaskSnapshot, curr: usize): (ti: TaskInfo)
    ensures ti.status == task.taskStatus
    ensures ti.syscallTimes == task.taskSyscallTimes
    ensures ti.time == ElapsedMs(curr, task.taskStartTime)
    ensures task.taskStartTime / 1000 <= curr / 1000 ==>
      ti.time as int == curr as int / 1000 - task.taskStartTime as int / 1000
    ensures task.taskStartTime <= curr ==>
      (curr - task.taskStartTime) as int / 1000 <= ti.time as int <= (curr - task.taskStartTime) as int / 1000 + 1
  {
    var start := task.taskStartTime;
    assert start <= curr ==> (curr - start) as int / 1000 <= ElapsedMs(curr, start) as int <= (curr - start) as int / 1000 + 1 by {
      if start <= curr {
        ElapsedMsWithinOneMilli(start, curr);
      }
    }
    TaskInfo(task.taskStatus, task.taskSyscallTimes, ElapsedMs(curr, task.taskStartTime))
  }

  /** The destination of a `*mut TaskInfo` after translation. */
  class TaskInfoSlot {
    var status: TaskStatus
    var syscallTimes: SyscallTimes
    var time: usize

    constructor (v: TaskInfo)
      ensures Value() == v
    {
      status, syscallTimes, time := v.status, v.syscallTimes, v.time;
    }

    function Value(): TaskInfo
      reads this
    {
      TaskInfo(status, syscallTimes, time)
    }
  }

  /**
    `sys_task_info(ti)`: `curr` is the clock sample in microseconds, `task`
    the current task's control block and `ti` the translated destination,
    written field by field.
   */
  method SysTaskInfo(ti: TaskInfoSlot, task: TaskSnapshot, curr: usize) returns (r: isize)
    modifies ti
    ensures ti.Value() == TaskInfoOf(task, curr)
    ensures r == 0
  {
    ti.status := task.taskStatus;
    ti.syscallTimes := task.taskSyscallTimes;
    ti.time := WrappingSub(curr / MICROS_PER_MILLI, task.taskStartTime / MICROS_PER_MILLI);
    r := 0;
  }
}
