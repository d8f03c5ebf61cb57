/** The `errno` values the triggers tell apart. */
module Errno {
  const ENOENT: nat := 2
  const ENOTDIR: nat := 20
}
