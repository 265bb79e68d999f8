/** The results of requests, as the servers return them. */
module Errno {
  const OK: int := 0
  const ENOENT: int := -2
  const ECHILD: int := -10
  const EAGAIN: int := -11
  const EINVAL: int := -22
  const EFBIG: int := -27
  const ENOSPC: int := -28
  const EROFS: int := -30
  const SUSPEND: int := -998
}
