# fsusg.c in Dafny

A model of `fsusg.c` from Taylor UUCP, as shipped in FreeBSD's
`gnu/libexec/uucp/libunix`. The file implements `get_fs_usage`. This function
reports how large the filesystem holding a path is, how much of it is free
and available, and how many inodes it has. Every block count is reported in
512-byte blocks. Exactly one platform facility is chosen when the program is
built: `statvfs`, one of the `statfs` variants, `ustat`, AIX's `dustat`, or
QNX's `disk_space`. It may also be none of them.

The model has four modules.

- `Blocks` (`blocks.dfy`) holds `adjust_blocks`, the block-unit converter.
  It also holds `CDiv`, C's truncating division, written out explicitly.
- `Resolver` (`resolver.dfy`) holds the QNX path-shortening loop. `Shorten`
  is one step of the loop, and `Resolve` is the whole loop as a recursive
  function. `OpenAncestor` is the same loop written as a `while` loop over a
  mutable candidate. It is proved to open the same candidates, in the same
  order, as `Resolve` describes, and to end with the same reply.
- `Platform` (`platform.dfy`) holds the record that each facility fills in.
  Each call is a `Call<T>`, which pairs the C return code with the buffer.
  `Sys` bundles the facilities as oracle functions.
- `FsUsage` (`fsusage.dfy`) holds the rest:
  - `Strategy`, the build-time choice;
  - one map per branch from a platform record to `struct fs_usage`;
  - the AIX `statfs` stand-in, `DustatStatfs`;
  - `GetFsUsage`, which returns the C result (0 or -1) together with the
    caller's `fs_usage` after the call. This makes it visible that a failing
    call writes nothing.

The model follows the code as written, including where it does less than its
comments or a reader might expect:

- For finer source blocks, `adjust_blocks` computes `(blocks + 1) / ratio`.
  This rounds up only when the ratio is 2. With a larger ratio it can round
  down: one 128-byte block becomes zero 512-byte blocks. `AdjustFinerCanDropBlock`
  proves this. `AdjustHalvingRoundsUp` proves the rounding up for ratio 2.
- Every failure returns -1, including a build with no facility. So a missing
  path cannot be told apart from "unsupported" by the return value.
- The fields are never negative only if the platform's own numbers are sane.
  The AIX stand-in computes `du_fsize - du_isize` and
  `(du_isize - 2) * du_inopb`, and both go negative on inconsistent input.
  `ProbeWellFormed` states the guarantee under that hypothesis (`Sane`).
- The QNX node-root test does not check that the node part is digits.
- Each branch tests failure in its own way, and the model keeps these
  differences:
  - Ultrix fails unless `statfs` returns exactly 1.
  - The AIX stand-in fails on any nonzero result from `stat` or `dustat`.
  - `disk_space` fails only when it returns exactly -1.
  - The other branches fail on a negative result.

## Model

| member | source | states |
|---|---|---|
| Blocks.CDiv | gnu/libexec/uucp/libunix/fsusg.c:107 | C division by a positive divisor truncates toward zero: the remainder lies in [0, b) for a non-negative dividend and in (-b, 0] for a negative one |
| Blocks.AdjustBlocks | gnu/libexec/uucp/libunix/fsusg.c:97-108 | equal sizes return the count unchanged; a non-negative count never becomes negative |
| Blocks.AdjustKeepsBytes | gnu/libexec/uucp/libunix/fsusg.c:102-105 | when the source size is a whole multiple of the target size, the result holds exactly as many bytes as the input (blocks * (fromsize / tosize)) |
| Blocks.AdjustFinerBounds | gnu/libexec/uucp/libunix/fsusg.c:106-107 | for finer source blocks, the result r satisfies r*k <= blocks + 1 < (r+1)*k with k = tosize / fromsize, so it is exactly the quotient (blocks + 1) / k |
| Blocks.AdjustHalvingRoundsUp | gnu/libexec/uucp/libunix/fsusg.c:94-107 | when the target is twice the source size, the result is the count rounded up, ceil(blocks / 2), as the comment promises |
| Blocks.AdjustFinerCanDropBlock | gnu/libexec/uucp/libunix/fsusg.c:94-107 | the promise to round up fails once the ratio is 3 or more: one source block converts to zero target blocks |
| Blocks.AdjustMonotone | gnu/libexec/uucp/libunix/fsusg.c:97-108 | conversion keeps the order of two counts under the same pair of sizes |
| Blocks.AdjustExamples | gnu/libexec/uucp/libunix/fsusg.c:102-107 | 100 blocks of 2048 bytes become 400 and 100 blocks of 1024 become 200 (the Ultrix doubling); 100 and 101 blocks of 256 become 50 and 51; 1 block of 128 becomes 0 |
| Resolver.LastSlash | gnu/libexec/uucp/libunix/fsusg.c:205 | the index of the last '/' (as strrchr finds it), or -1 when there is none |
| Resolver.Shorten | gnu/libexec/uucp/libunix/fsusg.c:204-222 | with no '/' the candidate becomes "."; with only a leading '/' it becomes "/"; otherwise it becomes the proper prefix ending just before the last '/' |
| Resolver.ShortenProgress | gnu/libexec/uucp/libunix/fsusg.c:193-222 | shortening a candidate the loop does not stop at yields a terminal candidate or a strictly shorter string, so the termination measure drops |
| Resolver.Resolve | gnu/libexec/uucp/libunix/fsusg.c:188-223 | the loop tries the path first and goes on only after ENOENT on a non-terminal candidate, moving to its shortening each time; its final reply is the open of the last candidate; it ends on ENOENT only at a terminal candidate; no candidate is tried twice; at most length + 1 attempts are made |
| Resolver.OpenAncestor | gnu/libexec/uucp/libunix/fsusg.c:187-223 | the C-shaped while loop opens exactly the candidates of Resolve's trace, in order, and ends with Resolve's reply and candidate, after at most length + 1 opens |
| Resolver.TerminalTriedOnce | gnu/libexec/uucp/libunix/fsusg.c:193-202 | a terminal candidate ("/", ".", "", "//node") is tried once and never shortened, whatever open reports |
| Resolver.FallsBackToCurrentDirectory | gnu/libexec/uucp/libunix/fsusg.c:204-222 | when a/b/c, a/b and a do not exist and "." opens, the loop tries a/b/c, a/b, a, "." and returns the descriptor of "." |
| Resolver.NodeRootStopsShortening | gnu/libexec/uucp/libunix/fsusg.c:196-198 | "//2" and "//node" are terminal, and "//2/tmp" shortens to "//2" |
| FsUsage.Rescaled | gnu/libexec/uucp/libunix/fsusg.c:270-274 | a unit that is a multiple of 512 keeps the byte count of all three block fields; non-negative counts stay non-negative; available <= free <= total is kept; inode counts are copied |
| FsUsage.FromFsData | gnu/libexec/uucp/libunix/fsusg.c:132-137 | Ultrix counts come in 1024-byte blocks, so each block count is doubled; inode counts are copied |
| FsUsage.FromStatvfs | gnu/libexec/uucp/libunix/fsusg.c:175-177 | SVR4 counts are read in fragment-size units when f_frsize is nonzero and in f_bsize units otherwise, keeping the bytes; inode counts are copied |
| FsUsage.FromStatfsBsize | gnu/libexec/uucp/libunix/fsusg.c:140-145 | 4.3BSD and AIX counts are read in f_bsize units, keeping the bytes; inode counts are copied |
| FsUsage.FromStatfsFsize | gnu/libexec/uucp/libunix/fsusg.c:148-153 | 4.4BSD counts are read in f_fsize units, keeping the bytes; inode counts are copied |
| FsUsage.FromStatfs4 | gnu/libexec/uucp/libunix/fsusg.c:161-167 | SVR3 counts are taken as 512-byte blocks whatever f_bsize says; without _SEQUENT_ the available count is the free count |
| FsUsage.FromUstat | gnu/libexec/uucp/libunix/fsusg.c:259-263 | SVR2 cannot report the total or inode counts, so those are -1; the free count, unconverted, is both free and available |
| FsUsage.FromSpace | gnu/libexec/uucp/libunix/fsusg.c:242-249 | QNX's total and free counts are stored directly, with free also as available; the inode counts are -1 because there is no inode limit |
| FsUsage.DustatStatfs | gnu/libexec/uucp/libunix/fsusg.c:286-308 | the AIX statfs stand-in returns 0 or -1, and -1 exactly when stat or dustat returns nonzero; on failure the buffer is untouched; on success total = du_fsize - du_isize, free = available = du_tfree, inodes = (du_isize - 2) * du_inopb, free inodes = du_tinode |
| FsUsage.GetFsUsage | gnu/libexec/uucp/libunix/fsusg.c:118-281 | returns 0 or -1, with -1 exactly when the build's facility fails (Fails) and always with no facility; on -1 the caller's fs_usage is unchanged. On success: Ultrix doubles btot, bfree and bfreen and copies the inode counts; SVR4 converts from f_frsize (f_bsize when it is 0), 4.3BSD from f_bsize, 4.4BSD from f_fsize, and AIX from the stand-in's du_bsize, each with inode counts copied; SVR3 copies the raw counts, with available = free unless _SEQUENT_; SVR2 reports the ustat free count as free and available with -1 total and inodes; QNX reports disk_space's total and free for the descriptor the path loop opened, with -1 inodes |
| FsUsage.ProbeWellFormed | gnu/libexec/uucp/libunix/fsusg.c:127-274 | on a platform whose counts are not negative, a successful call leaves every field a count or -1 |
| FsUsage.ProbeKeepsOrder | gnu/libexec/uucp/libunix/fsusg.c:127-274 | if the platform reports available <= free <= total, so does a successful call (free <= total where a total is reported) |
| FsUsage.ProbeWritesEveryField | gnu/libexec/uucp/libunix/fsusg.c:127-274 | a successful call writes all five fields: the result does not depend on what the caller's structure held |

## Left out

- The system calls `statfs`, `statvfs`, `ustat`, `dustat`, `stat`, `open` and `disk_space` are not modelled. They are foreign facilities, so they appear as oracle functions in `Platform.Sys`.
- `close` on the QNX descriptor is not modelled. Its result is discarded and it cannot change the outcome.
- Logging (`ulog`, `strerror`) and the path buffer (`zbufcpy`, `ubuffree`) are not modelled. They are diagnostics and memory management with no effect on the result.
- The `disk` argument of `get_fs_usage` is left out. No branch reads it.
- The failure cause is not modelled. On -1 the C code leaves the failing facility's `errno` set for the caller, and a build with no facility returns -1 without setting it. `Probe` carries only the return value, so a caller of the model cannot tell these causes apart.
- Preprocessor mechanics are replaced by explicit mappings. The `#if` selection becomes `Strategy`, the `f_bavail` alias becomes `FromStatfs4`'s `sequent` flag, and each `convert_blocks` macro becomes its own map.
- C integer widths are not modelled. The `long` product in `adjust_blocks` can overflow, and unsigned `statvfs` fields are converted to `int`/`long`. The model uses unbounded integers because the source does not check for either.
- The AIX stand-in's `f_type` and `f_fsid` stores are left out. They never reach `fs_usage`.
- Blocks.AdjustBlocks: requires both block sizes to be positive. In C, a zero size divides by zero, and the code does not guard against it. The C code also gives a result for some negative sizes (512 over -256 gives a ratio of -2). These are excluded as well, because every caller passes a platform block size, which is positive.
- FsUsage.GetFsUsage: requires `Convertible`, which says the block size a converting branch reads is positive whenever its call succeeds. This is the same division-by-zero condition as above.
- FsUsage.FromStatvfs: its contract fixes the byte count only for units that are multiples of 512. Finer units follow the `AdjustBlocks` lemmas instead.
- FsUsage.FromStatfsBsize: its contract fixes the byte count only for units that are multiples of 512. Finer units follow the `AdjustBlocks` lemmas instead.
- FsUsage.FromStatfsFsize: its contract fixes the byte count only for units that are multiples of 512. Finer units follow the `AdjustBlocks` lemmas instead.
