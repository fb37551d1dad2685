/** Sizes that several parts of the kernel share (xv6/kernel/param.h). */
module Params {

  const MAXOPBLOCKS := 10             // the most blocks that one operation may log
  const LOGBLOCKS := MAXOPBLOCKS * 3  // data blocks in the on-disk log
  const NBUF := MAXOPBLOCKS * 3       // buffers in the cache
}
