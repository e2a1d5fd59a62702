/** The sizes fixed by param.h, fs.h and pipe.c, kept symbolic: only the relations
    between them that the code relies on are stated, and the values in the headers
    are one instance. */
module Params {

  const W32 := 0x1_0000_0000

  datatype RawParams = RawParams(
    maxOpBlocks: int, logSize: int, nbuf: int, ninode: int, nproc: int,
    ndirect: int, nindirect: int, pipeSize: int)
  {
    predicate Ok() {
      && 0 < maxOpBlocks && logSize == 3 * maxOpBlocks
      && logSize + 1 < nindirect                    // initlog: the header fits in a block
      && 0 < nbuf && 0 < ninode && 1 < nproc && 0 < ndirect
      && ndirect + 4 <= nindirect                   // an inode fits in a block
      && (ndirect + nindirect) * (4 * nindirect) < W32  // no file size overflows a uint
      && 0 < pipeSize < W32 && W32 % pipeSize == 0  // the ring survives counter wrap-around
    }
  }

  type Params = p: RawParams | p.Ok() witness RawParams(10, 30, 30, 50, 64, 12, 128, 512)

  const P: Params

  const MAXOPBLOCKS: nat := P.maxOpBlocks
  const LOGSIZE: nat := P.logSize
  const NBUF: nat := P.nbuf
  const NINODE: nat := P.ninode
  const NPROC: nat := P.nproc
  const NDIRECT: nat := P.ndirect
  const NINDIRECT: nat := P.nindirect
  const PIPESIZE: nat := P.pipeSize
  const BSIZE: nat := 4 * NINDIRECT
  const MAXFILE: nat := NDIRECT + NINDIRECT
}
