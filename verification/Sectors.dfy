/** Sector contents and the sizes shared by the storage models (fs.h, param.h, log.c). */
module Sectors {

  /** Upper bound on the sectors one file system call is meant to write. */
  const MAXOPBLOCKS := 10
  /** Capacity of the in-memory and on-disk log header. */
  const LOGSIZE := MAXOPBLOCKS * 3

  /** Contents of an ordinary sector. */
  type Block = seq<int>

  /** The header sector as struct logheader; entries from `n` on are stale. */
  datatype Header = Header(n: int, sector: seq<int>)

  /**
   A disk with its log. log.c puts the log on the last sb.nlog sectors: `home` holds the
   sectors below log.start, `head` the header at log.start, `slots` the sectors behind it.
   */
  datatype Disk = Disk(home: seq<Block>, head: Header, slots: seq<Block>)

  /** `home` with the listed sectors taken from `other`. */
  ghost predicate AgreeExcept(home: seq<Block>, other: seq<Block>, sectors: seq<int>)
  {
    |home| == |other| && forall s :: 0 <= s < |home| && s !in sectors ==> home[s] == other[s]
  }
}
