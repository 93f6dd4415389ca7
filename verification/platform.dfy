/**
 The platform facilities `get_fs_usage` calls, as records of integers and an
 oracle. Each call yields its C return code together with the buffer it
 filled in; whether a return code means failure is decided by the caller,
 because the branches of fsusg.c test it differently (`< 0`, `!= 1`, any
 nonzero value, exactly -1).
 */
module Platform {
  import opened Resolver

  /** One system call: its return code and the result buffer it filled. */
  datatype Call<T> = Call(ret: int, buf: T)

  /** `struct statvfs` (SVR4): block size, fragment size, and counts in
      fragments. */
  datatype Statvfs = Statvfs(
    bsize: int, frsize: int,
    blocks: int, bfree: int, bavail: int,
    files: int, ffree: int)

  /** `struct statfs` as the statfs-based branches read it: 4.3BSD and the
      AIX stand-in count in `bsize` units, 4.4BSD in `fsize` units, SVR3
      counts are taken as 512-byte blocks. SVR3 has no `bavail` except on
      DYNIX/ptx; the field is there and ignored where the platform lacks it. */
  datatype Statfs = Statfs(
    bsize: int, fsize: int,
    blocks: int, bfree: int, bavail: int,
    files: int, ffree: int)

  /** The `fd_req` part of Ultrix's `struct fs_data`, counted in 1024-byte
      blocks. */
  datatype FsData = FsData(btot: int, bfree: int, bfreen: int, gtot: int, gfree: int)

  /** The part of `struct stat` the code uses: the device of the file. */
  datatype Stat = Stat(dev: int)

  /** The part of `struct ustat` the code uses: the free block count. */
  datatype Ustat = Ustat(tfree: int)

  /** The parts of AIX PS/2's `struct dustat` the `statfs` stand-in reads. */
  datatype Dustat = Dustat(
    bsize: int, fsize: int, isize: int,
    tfree: int, inopb: int, tinode: int)

  /** What QNX's `disk_space` stores through its two out-pointers. */
  datatype Space = Space(free: int, total: int)

  /** The facilities of the host, as functions from their arguments to their
      results. Only the facility of the strategy built in is ever consulted. */
  datatype Sys = Sys(
    statvfs: string -> Call<Statvfs>,
    statfs: string -> Call<Statfs>,
    statfsData: string -> Call<FsData>,
    stat: string -> Call<Stat>,
    ustat: int -> Call<Ustat>,
    dustat: int -> Call<Dustat>,
    open: string -> OpenReply,
    diskSpace: nat -> Call<Space>)
}
