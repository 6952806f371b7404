# Process-management syscalls of the os4 teaching kernel

This project models the syscall layer in `os4/src/syscall/process.rs` of a
single-hart RISC-V teaching kernel, and proves properties of it in Dafny:

- `sys_yield` returns 0 and `sys_set_priority` always returns -1.
- `sys_get_time` splits a microsecond clock sample into `TimeVal { sec, usec }`.
- `sys_mmap` checks its arguments and then hands the request to the task manager.
  The start must be page-aligned. The permission word must have no bit outside
  `0x7` (bit 0 = R, bit 1 = W, bit 2 = X) and at least one of those bits set.
- `sys_munmap` forwards to the task manager without any check of its own.
- `sys_task_info` copies the current task's status and syscall counters. It
  also stores the elapsed milliseconds, computed as `curr/1000 - start/1000`.

Files:

- `machine.dfy` (module `Machine`) holds Rust's `usize`, `isize` and `u32` on a
  64-bit target. It defines `&` bit by bit (`BitAnd`). It computes `!` in
  closed form as `2^64 - 1 - a` and proves this equal to the bit-by-bit
  complement `BitNot` (`NotFlipsEveryBit`). It also defines wrapping `usize`
  subtraction, and has lemmas on what the masks `0x7` and `!0x7` select.
- `config.dfy` (module `Config`) holds `PAGE_SIZE` (0x1000) and
  `MAX_SYSCALL_NUM` (500). `os4/src/config.rs` is not part of this model; these
  are the values the ch4 kernel uses.
- `process.dfy` (module `Process`) holds the syscalls and the lemmas about them.
  It also holds the records `TimeVal` (the struct at
  `os4/src/syscall/process.rs:14-17`) and `TaskInfo` (the struct at
  `os4/src/syscall/process.rs:20-24`) as datatypes.

The clock, the task control block and the two area operations enter as
parameters:

- The clock sample from `get_time_us` is a `usize` argument.
- The current task's control block is a `TaskSnapshot` value. It holds the
  status, the syscall counters and the start time.
- `task_map_an_area` and `task_unmap_an_area` are function-typed arguments of
  `SysMmap` and `SysMunmap`. The model knows nothing about them.

A store through a translated user pointer is modelled in two ways. The pure
functions `TimeValOf` and `TaskInfoOf` give the record that is stored. The
methods `SysGetTime` and `SysTaskInfo` write that record into a slot object
(`TimeValSlot`, `TaskInfoSlot`), which stands for the translated destination.
`SysTaskInfo` writes the three fields one at a time, as the source does.

Facts about the code that shape the model:

- `sys_munmap` does not check alignment itself, unlike `sys_mmap`. Whether
  `task_unmap_an_area` checks it is not visible, so the model only says that
  this layer adds no check (`MunmapAddsNoAlignmentCheck`).
- Overlap and out-of-memory handling, if any, happen inside
  `task_map_an_area`. Its result is passed back unchanged.
- The `usize` subtraction in `sys_task_info` is modelled as a release build
  runs it: it wraps modulo 2^64. When the start time falls in an earlier or
  the same millisecond as the current time, the result is exact
  (`ElapsedMs`). `ElapsedMsWrapsBackwards` states what happens otherwise.

## Model

| member | source | states |
|---|---|---|
| `Machine.And` | os4/src/syscall/process.rs:61-64 | `a & b` on `usize` is `BitAnd` of the two words and never exceeds either operand |
| `Machine.Not` | os4/src/syscall/process.rs:61 | `!a` on `usize`, computed in closed form: `a + !a == 2^64 - 1`; `NotFlipsEveryBit` proves it equal to `BitNot` in 64 bits |
| `Machine.NotFlipsEveryBit` | os4/src/syscall/process.rs:61 | `!a` on a 64-bit word, computed as `2^64 - 1 - a`, is the bit-by-bit complement of `a` in 64 bits |
| `Machine.BitNot` | os4/src/syscall/process.rs:61 | the bit-by-bit complement in `width` bits stays below `2^width` and adds up with its argument to `2^width - 1` |
| `Machine.BitAnd` | os4/src/syscall/process.rs:61-64 | bitwise AND never exceeds either operand |
| `Machine.AndNotSeven` | os4/src/syscall/process.rs:61 | `p & !0x7` is `p` with its three low bits cleared, `p - p % 8` |
| `Machine.AndSeven` | os4/src/syscall/process.rs:64 | `p & 0x7` is `p % 8` |
| `Machine.BitAndLowOnes` | os4/src/syscall/process.rs:64 | masking with a run of low one-bits `m` keeps the value modulo `m + 1` |
| `Machine.BitAndHighMask` | os4/src/syscall/process.rs:61 | masking a word with every bit but the three lowest gives the value with those three bits cleared |
| `Machine.WrappingSub` | os4/src/syscall/process.rs:82 | `usize` subtraction is exact when it does not underflow, and otherwise adds 2^64 |
| `Process.SysYield` | os4/src/syscall/process.rs:33-36 | yield returns 0 |
| `Process.SysSetPriority` | os4/src/syscall/process.rs:52-54 | every priority request returns -1 |
| `Process.TimeValOf` | os4/src/syscall/process.rs:43-46 | the stored split is lossless (`sec * 1_000_000 + usec == us`) and normalized (`usec < 1_000_000`) |
| `Process.TimeValOfInverse` | os4/src/syscall/process.rs:43-46 | every normalized time value that fits a `usize` is what is stored for its own microsecond count |
| `Process.TimeValOfUnique` | os4/src/syscall/process.rs:43-46 | the stored split is the only normalized time value standing for the sample |
| `Process.TimeValOfMonotone` | os4/src/syscall/process.rs:43-46 | a later sample never gives a lexicographically earlier `(sec, usec)` |
| `Process.TimeValSlot.constructor` | os4/src/syscall/process.rs:14-17 | the translated destination of a `*mut TimeVal` has exactly the struct's two fields: built from a `TimeVal`, it holds that value |
| `Process.SysGetTime` | os4/src/syscall/process.rs:39-49 | the destination holds exactly `TimeValOf(now)` afterwards, and the call returns 0 |
| `Process.PermissionGuards` | os4/src/syscall/process.rs:61-66 | `port & !0x7 != 0` holds exactly when `port >= 8`; below 8, `port & 0x7 == 0` holds exactly when `port == 0` |
| `Process.SysMmap` | os4/src/syscall/process.rs:57-68 | returns -1 for a misaligned start, for `port >= 8` and for `port == 0`; returns exactly `task_map_an_area(start, len, port)` when the start is page-aligned and `1 <= port <= 7` |
| `Process.MmapReachesMapIff` | os4/src/syscall/process.rs:57-68 | the result equals the task manager's answer for every possible task manager, if and only if all three guards pass |
| `Process.MmapRefusalIgnoresMap` | os4/src/syscall/process.rs:58-66 | a refused request returns -1 whatever the length and whatever the task manager would do |
| `Process.SysMunmap` | os4/src/syscall/process.rs:70-72 | returns exactly `task_unmap_an_area(start, len)` |
| `Process.MunmapAddsNoAlignmentCheck` | os4/src/syscall/process.rs:70-72 | a misaligned start that `sys_mmap` refuses still reaches the task manager through `sys_munmap`, and can succeed there |
| `Process.ElapsedMs` | os4/src/syscall/process.rs:82 | when `start/1000 <= curr/1000` (in particular when the start is not later than the current time), the result is exactly `curr/1000 - start/1000`, so it is non-negative |
| `Process.ElapsedMsMonotone` | os4/src/syscall/process.rs:82 | for a start not later than the earlier current time (`start <= curr1 <= curr2`), the elapsed milliseconds never decrease as the current time grows |
| `Process.ElapsedMsWithinOneMilli` | os4/src/syscall/process.rs:82 | when `start <= curr`, the elapsed milliseconds are the true elapsed time `(curr - start) / 1000`, or one more |
| `Process.ElapsedMsWrapsBackwards` | os4/src/syscall/process.rs:82 | when the start falls in a later millisecond than the current time (`curr/1000 < start/1000`), the result is `curr/1000 - start/1000 + 2^64` |
| `Process.TaskInfoOf` | os4/src/syscall/process.rs:80-82 | the stored status and syscall counters are the current task's, unchanged; the stored time is `ElapsedMs(curr, start)`, which is exactly `curr/1000 - start/1000` when `start/1000 <= curr/1000`, and within one millisecond of the true elapsed time when `start <= curr` |
| `Process.TaskInfoSlot.constructor` | os4/src/syscall/process.rs:20-24 | the translated destination of a `*mut TaskInfo` has exactly the struct's three fields: built from a `TaskInfo`, it holds that value |
| `Process.SysTaskInfo` | os4/src/syscall/process.rs:75-85 | the destination holds exactly `TaskInfoOf(task, curr)` afterwards, and the call returns 0 |

## Left out

- `sys_exit` (os4/src/syscall/process.rs:26-30): it logs, switches to the next task and never returns. The `panic!` after it cannot be reached. Scheduling is not part of this model.
- The call to `suspend_current_and_run_next` in `sys_yield`: it is a context switch. Only the return value is modelled.
- `get_ptr_physical_addr` (in `crate::mm`) is not part of this model. Translation is assumed to yield a writable destination, which is the slot object passed to `SysGetTime` and `SysTaskInfo`. Aliasing between that destination and other kernel state is not modelled. Only the start address of the destination is translated (os4/src/syscall/process.rs:78), and a `TaskInfo` is about 2 KB (500 `u32` counters plus the status and the time). A destination that spans a page boundary, whose later bytes would land past the end of the translated frame (os4/src/syscall/process.rs:80-82), is not modelled: the slot object is always one contiguous, writable record.
- `task_map_an_area` and `task_unmap_an_area` (in `crate::task`) are not part of this model. Their area bookkeeping, page-table changes, frame allocation, overlap checks and rollback are unconstrained function arguments. Nothing is claimed about them.
- `ElapsedMs` and `TaskInfoOf`: a debug build panics when `curr/1000 - start/1000` underflows at os4/src/syscall/process.rs:82. The model follows a release build, which wraps modulo 2^64, and does not model the panic.
- `get_time_us` is a hardware timer read. It is a parameter. The `info!` logging is output only.
- `TaskStatus` is copied and never inspected. Its variants `UnInit`, `Ready`, `Running` and `Exited` follow the ch4 task module, which is not part of this model.
- `PAGE_SIZE` and `MAX_SYSCALL_NUM` are fixed at 0x1000 and 500, because `os4/src/config.rs` is not part of this model.
- The imports of `riscv::addr::page`, `PageTable`, `frame_alloc`, `PAGE_SIZE_BITS`, `VirtAddr` and `current_user_token` are unused.
