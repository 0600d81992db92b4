/** Sizes, limits and error numbers shared by the modules (include/linux/sched.h, include/linux/fs.h,
    include/errno.h). */
module Kernel {
  const NR_TASKS := 64
  const BLOCK_SIZE := 1024
  const PAGE_SIZE := 4096

  const EPERM := 1
  const ENOENT := 2
  const EIO := 5
  const EACCES := 13
  const EBUSY := 16
  const EEXIST := 17
  const ENOTDIR := 20
  const EISDIR := 21
  const EINVAL := 22
  const ENOSPC := 28
  const ENOTEMPTY := 39
  const ELOOP := 40

  type Byte = x: int | 0 <= x < 256

  function Zeros(n: nat): (z: seq<Byte>)
    ensures |z| == n
    ensures forall i | 0 <= i < n :: z[i] == 0
  {
    seq(n, i => 0)
  }
}
