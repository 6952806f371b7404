/** Kernel-wide constants the syscall layer reads. */
module Config {
  import opened Machine

  /** Size of one virtual page in bytes (4 KiB, Sv39). */
  const PAGE_SIZE: usize := 0x1000

  /** Number of syscall identifiers a task's invocation counters cover. */
  const MAX_SYSCALL_NUM: nat := 500
}
