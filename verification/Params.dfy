/** Compile-time limits of the kernel (kernel/param.h and kernel/fs.h). */
module Params {
  const BSIZE := 512          // bytes per disk block
  const MAXOPBLOCKS := 16     // blocks any file-system operation may write
  const LOGSIZE := MAXOPBLOCKS
  const NBUF := MAXOPBLOCKS   // buffers in the block cache
  const FSSIZE := 2000        // blocks in the file-system image
  const ROOTDEV := 1
}
