/**
 `get_fs_usage` of fsusg.c: fill a `struct fs_usage` with the size, free
 space and inode counts of the filesystem a path lives on, in 512-byte
 blocks, through whichever platform facility the build selected.

 The build-time `#if STAT_*` selection is the `Strategy` datatype; the C
 function's integer result and the caller's `fs_usage` after the call are
 returned together as a `Probe`, so that a failing call can be seen to leave
 the caller's structure as it was.
 */
module FsUsage {
  import opened Blocks
  import opened Resolver
  import opened Platform

  /** The block size every count is reported in. */
  const Canonical: int := 512

  /** What is stored in a field the platform cannot report. */
  const Unknown: int := -1

  /** `struct fs_usage`. */
  datatype Usage = Usage(blocks: int, bfree: int, bavail: int, files: int, ffree: int)

  /** The value `get_fs_usage` returns (0 or -1) and the caller's `fs_usage`
      after the call. */
  datatype Probe = Probe(ret: int, fsp: Usage)

  /** The facility chosen when the program is built; `StatStatfs4` carries
      whether `_SEQUENT_` (DYNIX/ptx) is defined. */
  datatype Strategy =
    | StatNone            // no facility
    | StatStatvfs         // SVR4
    | StatStatfs2Bsize    // 4.3BSD, SunOS 4, HP-UX, AIX
    | StatStatfs2Fsize    // 4.4BSD
    | StatStatfs2FsData   // Ultrix
    | StatStatfs4(sequent: bool)  // SVR3, Dynix, Irix
    | StatDustat          // AIX PS/2, through the statfs stand-in below
    | StatUstat           // SVR2
    | StatDiskSpace       // QNX

  /** Every field is a count or the `Unknown` marker. */
  predicate WellFormed(u: Usage)
  {
    && (u.blocks >= 0 || u.blocks == Unknown)
    && (u.bfree >= 0 || u.bfree == Unknown)
    && (u.bavail >= 0 || u.bavail == Unknown)
    && (u.files >= 0 || u.files == Unknown)
    && (u.ffree >= 0 || u.ffree == Unknown)
  }

  /** The three block fields of `u` hold exactly as many bytes as `blocks`,
      `bfree` and `bavail` blocks of `unit` bytes. */
  predicate SameBytes(u: Usage, unit: int, blocks: int, bfree: int, bavail: int)
  {
    && u.blocks * Canonical == blocks * unit
    && u.bfree * Canonical == bfree * unit
    && u.bavail * Canonical == bavail * unit
  }

  /** `u` is what `convert_blocks` makes of platform counts read in
      `unit`-byte blocks: each block count goes through `adjust_blocks` from
      `unit` to 512 bytes, and the inode counts are copied. */
  predicate ConvertedFrom(u: Usage, unit: int, blocks: int, bfree: int, bavail: int, files: int, ffree: int)
    requires 0 < unit
  {
    && u.blocks == AdjustBlocks(blocks, unit, Canonical)
    && u.bfree == AdjustBlocks(bfree, unit, Canonical)
    && u.bavail == AdjustBlocks(bavail, unit, Canonical)
    && u.files == files && u.ffree == ffree
  }

  /** Counts of `unit`-byte blocks turned into canonical blocks through
      `adjust_blocks`; inode counts pass through untouched. */
  function Rescaled(unit: int, blocks: int, bfree: int, bavail: int, files: int, ffree: int): (u: Usage)
    requires 0 < unit
    ensures u.files == files && u.ffree == ffree
    ensures unit % Canonical == 0 ==> SameBytes(u, unit, blocks, bfree, bavail)
    ensures 0 <= blocks && 0 <= bfree && 0 <= bavail ==> 0 <= u.blocks && 0 <= u.bfree && 0 <= u.bavail
    ensures bavail <= bfree <= blocks ==> u.bavail <= u.bfree <= u.blocks
  {
    RescaleFacts(unit, blocks, bfree, bavail);
    Usage(AdjustBlocks(blocks, unit, Canonical),
          AdjustBlocks(bfree, unit, Canonical),
          AdjustBlocks(bavail, unit, Canonical),
          files, ffree)
  }

  lemma RescaleFacts(unit: int, blocks: int, bfree: int, bavail: int)
    requires 0 < unit
    ensures unit % Canonical == 0 ==>
              && AdjustBlocks(blocks, unit, Canonical) * Canonical == blocks * unit
              && AdjustBlocks(bfree, unit, Canonical) * Canonical == bfree * unit
              && AdjustBlocks(bavail, unit, Canonical) * Canonical == bavail * unit
    ensures bavail <= bfree <= blocks ==>
              && AdjustBlocks(bavail, unit, Canonical) <= AdjustBlocks(bfree, unit, Canonical)
              && AdjustBlocks(bfree, unit, Canonical) <= AdjustBlocks(blocks, unit, Canonical)
  {
    if unit % Canonical == 0 {
      AdjustKeepsBytes(blocks, unit, Canonical);
      AdjustKeepsBytes(bfree, unit, Canonical);
      AdjustKeepsBytes(bavail, unit, Canonical);
    }
    if bavail <= bfree <= blocks {
      AdjustMonotone(bavail, bfree, unit, Canonical);
      AdjustMonotone(bfree, blocks, unit, Canonical);
    }
  }

  /** Ultrix: counts arrive in 1024-byte blocks, so every block count doubles. */
  function FromFsData(d: FsData): (u: Usage)
    ensures u.blocks == 2 * d.btot && u.bfree == 2 * d.bfree && u.bavail == 2 * d.bfreen
    ensures u.files == d.gtot && u.ffree == d.gfree
  {
    Rescaled(1024, d.btot, d.bfree, d.bfreen, d.gtot, d.gfree)
  }

  /** SVR4 counts in fragments when the fragment size is reported (nonzero)
      and in blocks otherwise. */
  function StatvfsUnit(b: Statvfs): int
  {
    if b.frsize != 0 then b.frsize else b.bsize
  }

  /** SVR4: the counts are read in the unit `StatvfsUnit` picks. */
  function FromStatvfs(b: Statvfs): (u: Usage)
    requires 0 < StatvfsUnit(b)
    ensures b.frsize != 0 && b.frsize % Canonical == 0 ==> SameBytes(u, b.frsize, b.blocks, b.bfree, b.bavail)
    ensures b.frsize == 0 && b.bsize % Canonical == 0 ==> SameBytes(u, b.bsize, b.blocks, b.bfree, b.bavail)
    ensures u.files == b.files && u.ffree == b.ffree
  {
    Rescaled(StatvfsUnit(b), b.blocks, b.bfree, b.bavail, b.files, b.ffree)
  }

  /** 4.3BSD and the AIX stand-in: the counts are in `f_bsize` units. */
  function FromStatfsBsize(b: Statfs): (u: Usage)
    requires 0 < b.bsize
    ensures b.bsize % Canonical == 0 ==> SameBytes(u, b.bsize, b.blocks, b.bfree, b.bavail)
    ensures u.files == b.files && u.ffree == b.ffree
  {
    Rescaled(b.bsize, b.blocks, b.bfree, b.bavail, b.files, b.ffree)
  }

  /** 4.4BSD: the counts are in `f_fsize` (fragment) units. */
  function FromStatfsFsize(b: Statfs): (u: Usage)
    requires 0 < b.fsize
    ensures b.fsize % Canonical == 0 ==> SameBytes(u, b.fsize, b.blocks, b.bfree, b.bavail)
    ensures u.files == b.files && u.ffree == b.ffree
  {
    Rescaled(b.fsize, b.blocks, b.bfree, b.bavail, b.files, b.ffree)
  }

  /** SVR3: the counts are taken to be 512-byte blocks already, whatever
      `f_bsize` says; without `_SEQUENT_` there is no `f_bavail` and the free
      count stands in for it. */
  function FromStatfs4(b: Statfs, sequent: bool): (u: Usage)
    ensures SameBytes(u, Canonical, b.blocks, b.bfree, if sequent then b.bavail else b.bfree)
    ensures !sequent ==> u.bavail == u.bfree
    ensures u.files == b.files && u.ffree == b.ffree
  {
    Usage(b.blocks, b.bfree, if sequent then b.bavail else b.bfree, b.files, b.ffree)
  }

  /** SVR2: only the free count is known; it is stored unconverted as both
      free and available space, and the other three fields are unknown. */
  function FromUstat(s: Ustat): (u: Usage)
    ensures u.blocks == Unknown && u.files == Unknown && u.ffree == Unknown
    ensures u.bfree == s.tfree && u.bavail == s.tfree
  {
    Usage(Unknown, s.tfree, s.tfree, Unknown, Unknown)
  }

  /** QNX: total and free counts are already 512-byte blocks; there is no
      inode limit, so the inode fields are unknown. */
  function FromSpace(s: Space): (u: Usage)
    ensures u.blocks == s.total && u.bfree == s.free && u.bavail == s.free
    ensures u.files == Unknown && u.ffree == Unknown
  {
    Usage(s.total, s.free, s.free, Unknown, Unknown)
  }

  /** The `statfs` that fsusg.c supplies on AIX PS/2 from `stat` and `dustat`.
      The blocks holding inodes are not counted as filesystem blocks, and the
      inode total leaves out the two reserved inodes. On failure (any nonzero
      return from either call) the caller's buffer is left as it was; on
      success the fields it does not set (`fsize` here) keep their values. */
  function DustatStatfs(sys: Sys, path: string, fsb: Statfs): (r: Call<Statfs>)
    ensures r.ret == 0 || r.ret == -1
    ensures r.ret == -1 <==> sys.stat(path).ret != 0 || sys.dustat(sys.stat(path).buf.dev).ret != 0
    ensures r.ret == -1 ==> r.buf == fsb
    ensures r.ret == 0 ==>
              var d := sys.dustat(sys.stat(path).buf.dev).buf;
              && r.buf.bsize == d.bsize
              && r.buf.blocks + d.isize == d.fsize
              && r.buf.bfree == d.tfree && r.buf.bavail == d.tfree
              && r.buf.files == (d.isize - 2) * d.inopb
              && r.buf.ffree == d.tinode
              && r.buf.fsize == fsb.fsize
  {
    var st := sys.stat(path);
    if st.ret != 0 then Call(-1, fsb)
    else
      var du := sys.dustat(st.buf.dev);
      if du.ret != 0 then Call(-1, fsb)
      else
        var d := du.buf;
        Call(0, fsb.(bsize := d.bsize, blocks := d.fsize - d.isize,
                     bfree := d.tfree, bavail := d.tfree,
                     files := (d.isize - 2) * d.inopb, ffree := d.tinode))
  }

  /** The uninitialised local `struct statfs` the AIX branch hands to the
      stand-in; it is read only after the stand-in has filled it in. */
  const Uninitialised: Statfs := Statfs(0, 0, 0, 0, 0, 0, 0)

  /** When the build's facility reports failure. This is a different test per
      branch: Ultrix's `statfs` must return exactly 1, the AIX stand-in fails
      on any nonzero result of `stat` or `dustat`, QNX's `disk_space` fails
      only on -1, and the rest fail on a negative result. */
  predicate Fails(s: Strategy, sys: Sys, path: string)
  {
    match s
    case StatNone => true
    case StatStatvfs => sys.statvfs(path).ret < 0
    case StatStatfs2Bsize => sys.statfs(path).ret < 0
    case StatStatfs2Fsize => sys.statfs(path).ret < 0
    case StatStatfs4(_) => sys.statfs(path).ret < 0
    case StatStatfs2FsData => sys.statfsData(path).ret != 1
    case StatDustat => sys.stat(path).ret != 0 || sys.dustat(sys.stat(path).buf.dev).ret != 0
    case StatUstat => sys.stat(path).ret < 0 || sys.ustat(sys.stat(path).buf.dev).ret < 0
    case StatDiskSpace =>
      var o := Resolve(sys.open, path).reply;
      !o.Opened? || sys.diskSpace(o.fd).ret == -1
  }

  /** What the C code needs of the platform to avoid dividing by zero: the
      block size a converting branch reads is positive whenever its call
      succeeds. */
  predicate Convertible(s: Strategy, sys: Sys, path: string)
  {
    match s
    case StatStatvfs => sys.statvfs(path).ret >= 0 ==> 0 < StatvfsUnit(sys.statvfs(path).buf)
    case StatStatfs2Bsize => sys.statfs(path).ret >= 0 ==> 0 < sys.statfs(path).buf.bsize
    case StatStatfs2Fsize => sys.statfs(path).ret >= 0 ==> 0 < sys.statfs(path).buf.fsize
    case StatDustat =>
      var st := sys.stat(path);
      st.ret == 0 && sys.dustat(st.buf.dev).ret == 0 ==> 0 < sys.dustat(st.buf.dev).buf.bsize
    case _ => true
  }

  /** The branches that store the free count as the available count. */
  predicate AvailIsFree(s: Strategy)
  {
    s.StatUstat? || s.StatDiskSpace? || s.StatDustat? || s == StatStatfs4(false)
  }

  /** `get_fs_usage` under build strategy `s`. It returns 0 or -1; -1 exactly
      when the facility fails (always, with no facility), and then not one
      field of the caller's structure has been written. On success each
      branch reports the counts of its own facility, converted from the block
      size that branch reads. */
  function GetFsUsage(s: Strategy, sys: Sys, path: string, fsp: Usage): (r: Probe)
    requires Convertible(s, sys, path)
    ensures r.ret == 0 || r.ret == -1
    ensures r.ret == -1 <==> Fails(s, sys, path)
    ensures r.ret == -1 ==> r.fsp == fsp
    ensures s.StatNone? ==> r.ret == -1
    ensures r.ret == 0 && (s.StatUstat? || s.StatDiskSpace?) ==> r.fsp.files == Unknown && r.fsp.ffree == Unknown
    ensures r.ret == 0 && s.StatUstat? ==> r.fsp.blocks == Unknown
    ensures r.ret == 0 && AvailIsFree(s) ==> r.fsp.bavail == r.fsp.bfree
    ensures r.ret == 0 && s.StatStatfs2FsData? ==>
              var d := sys.statfsData(path).buf;
              && r.fsp.blocks == 2 * d.btot && r.fsp.bfree == 2 * d.bfree && r.fsp.bavail == 2 * d.bfreen
              && r.fsp.files == d.gtot && r.fsp.ffree == d.gfree
    ensures r.ret == 0 && s.StatStatvfs? ==>
              var b := sys.statvfs(path).buf;
              ConvertedFrom(r.fsp, StatvfsUnit(b), b.blocks, b.bfree, b.bavail, b.files, b.ffree)
    ensures r.ret == 0 && s.StatStatfs2Bsize? ==>
              var b := sys.statfs(path).buf;
              ConvertedFrom(r.fsp, b.bsize, b.blocks, b.bfree, b.bavail, b.files, b.ffree)
    ensures r.ret == 0 && s.StatStatfs2Fsize? ==>
              var b := sys.statfs(path).buf;
              ConvertedFrom(r.fsp, b.fsize, b.blocks, b.bfree, b.bavail, b.files, b.ffree)
    ensures r.ret == 0 && s.StatDustat? ==>
              var d := sys.dustat(sys.stat(path).buf.dev).buf;
              ConvertedFrom(r.fsp, d.bsize, d.fsize - d.isize, d.tfree, d.tfree,
                            (d.isize - 2) * d.inopb, d.tinode)
    ensures r.ret == 0 && s.StatStatfs4? ==>
              var b := sys.statfs(path).buf;
              && r.fsp.blocks == b.blocks && r.fsp.bfree == b.bfree
              && r.fsp.bavail == (if s.sequent then b.bavail else b.bfree)
              && r.fsp.files == b.files && r.fsp.ffree == b.ffree
    ensures r.ret == 0 && s.StatUstat? ==>
              r.fsp.bfree == sys.ustat(sys.stat(path).buf.dev).buf.tfree
    ensures r.ret == 0 && s.StatDiskSpace? ==>
              var o := Resolve(sys.open, path).reply;
              && o.Opened?
              && r.fsp.blocks == sys.diskSpace(o.fd).buf.total
              && r.fsp.bfree == sys.diskSpace(o.fd).buf.free
  {
    match s
    case StatNone => Probe(-1, fsp)
    case StatStatfs2FsData =>
      var c := sys.statfsData(path);
      if c.ret != 1 then Probe(-1, fsp) else Probe(0, FromFsData(c.buf))
    case StatStatfs2Bsize =>
      var c := sys.statfs(path);
      if c.ret < 0 then Probe(-1, fsp) else Probe(0, FromStatfsBsize(c.buf))
    case StatDustat =>
      var c := DustatStatfs(sys, path, Uninitialised);
      if c.ret < 0 then Probe(-1, fsp) else Probe(0, FromStatfsBsize(c.buf))
    case StatStatfs2Fsize =>
      var c := sys.statfs(path);
      if c.ret < 0 then Probe(-1, fsp) else Probe(0, FromStatfsFsize(c.buf))
    case StatStatfs4(sequent) =>
      var c := sys.statfs(path);
      if c.ret < 0 then Probe(-1, fsp) else Probe(0, FromStatfs4(c.buf, sequent))
    case StatStatvfs =>
      var c := sys.statvfs(path);
      if c.ret < 0 then Probe(-1, fsp) else Probe(0, FromStatvfs(c.buf))
    case StatDiskSpace =>
      var o := Resolve(sys.open, path).reply;
      if !o.Opened? then Probe(-1, fsp)
      else
        var c := sys.diskSpace(o.fd);
        if c.ret == -1 then Probe(-1, fsp) else Probe(0, FromSpace(c.buf))
    case StatUstat =>
      var st := sys.stat(path);
      if st.ret < 0 then Probe(-1, fsp)
      else
        var c := sys.ustat(st.buf.dev);
        if c.ret < 0 then Probe(-1, fsp) else Probe(0, FromUstat(c.buf))
  }

  /** The platform reports no negative count in the record the strategy
      reads; for AIX PS/2 also that the inode area (at least the two reserved
      inodes' worth) fits inside the filesystem. */
  predicate Sane(s: Strategy, sys: Sys, path: string)
  {
    match s
    case StatNone => true
    case StatStatvfs =>
      var b := sys.statvfs(path).buf;
      0 <= b.blocks && 0 <= b.bfree && 0 <= b.bavail && 0 <= b.files && 0 <= b.ffree
    case StatStatfs2Bsize => StatfsSane(sys.statfs(path).buf)
    case StatStatfs2Fsize => StatfsSane(sys.statfs(path).buf)
    case StatStatfs4(_) => StatfsSane(sys.statfs(path).buf)
    case StatStatfs2FsData =>
      var d := sys.statfsData(path).buf;
      0 <= d.btot && 0 <= d.bfree && 0 <= d.bfreen && 0 <= d.gtot && 0 <= d.gfree
    case StatDustat =>
      var d := sys.dustat(sys.stat(path).buf.dev).buf;
      2 <= d.isize <= d.fsize && 0 <= d.tfree && 0 <= d.inopb && 0 <= d.tinode
    case StatUstat => 0 <= sys.ustat(sys.stat(path).buf.dev).buf.tfree
    case StatDiskSpace =>
      var o := Resolve(sys.open, path).reply;
      o.Opened? ==> 0 <= sys.diskSpace(o.fd).buf.free && 0 <= sys.diskSpace(o.fd).buf.total
  }

  predicate StatfsSane(b: Statfs)
  {
    0 <= b.blocks && 0 <= b.bfree && 0 <= b.bavail && 0 <= b.files && 0 <= b.ffree
  }

  /** A successful call on a platform that reports no negative counts fills
      every field with a count or the `Unknown` marker: nothing is left out
      and nothing else negative appears. */
  lemma ProbeWellFormed(s: Strategy, sys: Sys, path: string, fsp: Usage)
    requires Convertible(s, sys, path) && Sane(s, sys, path)
    ensures var r := GetFsUsage(s, sys, path, fsp);
            r.ret == 0 ==> WellFormed(r.fsp)
  {
    if s.StatDustat? {
      var d := sys.dustat(sys.stat(path).buf.dev).buf;
      assert 0 <= (d.isize - 2) * d.inopb by { MulNonNegative(d.isize - 2, d.inopb); }
    }
  }

  lemma MulNonNegative(a: int, b: int)
    requires 0 <= a && 0 <= b
    ensures 0 <= a * b
  {
  }

  /** The platform reports available <= free <= total in the record the
      strategy reads. */
  predicate Ordered(s: Strategy, sys: Sys, path: string)
  {
    match s
    case StatNone => true
    case StatStatvfs =>
      var b := sys.statvfs(path).buf;
      b.bavail <= b.bfree <= b.blocks
    case StatStatfs2Bsize => var b := sys.statfs(path).buf; b.bavail <= b.bfree <= b.blocks
    case StatStatfs2Fsize => var b := sys.statfs(path).buf; b.bavail <= b.bfree <= b.blocks
    case StatStatfs4(sequent) =>
      var b := sys.statfs(path).buf;
      (sequent ==> b.bavail <= b.bfree) && b.bfree <= b.blocks
    case StatStatfs2FsData =>
      var d := sys.statfsData(path).buf;
      d.bfreen <= d.bfree <= d.btot
    case StatDustat =>
      var d := sys.dustat(sys.stat(path).buf.dev).buf;
      d.tfree + d.isize <= d.fsize
    case StatUstat => true
    case StatDiskSpace =>
      var o := Resolve(sys.open, path).reply;
      o.Opened? ==> sys.diskSpace(o.fd).buf.free <= sys.diskSpace(o.fd).buf.total
  }

  /** Rescaling keeps the platform's ordering of the block counts: the result
      never shows more space available than free, or more free than in total
      (where a total is reported at all). */
  lemma ProbeKeepsOrder(s: Strategy, sys: Sys, path: string, fsp: Usage)
    requires Convertible(s, sys, path) && Ordered(s, sys, path)
    ensures var r := GetFsUsage(s, sys, path, fsp);
            r.ret == 0 ==> r.fsp.bavail <= r.fsp.bfree && (!s.StatUstat? ==> r.fsp.bfree <= r.fsp.blocks)
  {
  }

  /** A successful call writes all five fields: what the caller's structure
      held before has no bearing on what it holds afterwards. */
  lemma ProbeWritesEveryField(s: Strategy, sys: Sys, path: string, fsp1: Usage, fsp2: Usage)
    requires Convertible(s, sys, path)
    ensures GetFsUsage(s, sys, path, fsp1).ret == GetFsUsage(s, sys, path, fsp2).ret
    ensures GetFsUsage(s, sys, path, fsp1).ret == 0 ==>
              GetFsUsage(s, sys, path, fsp1).fsp == GetFsUsage(s, sys, path, fsp2).fsp
  {
  }
}
