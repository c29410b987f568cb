# seq_file record exporters — a Dafny model

This project models the two Linux kernel modules of the repository that export
records through `/proc` with the kernel's `seq_file` iterator interface
(start / next / stop / show):

- **`/proc/system_call_counter`** (`class_proc_module/call_counter_procfile.c`):
  a cursor over the kernel's table of per-system-call counters. `start` checks
  the saved position against `num_counters = 550`, `next` increments the
  position and re-checks it, `stop` does nothing, and `show` prints the counter
  with `"%lu\n"`.
- **`/proc/fork_info`** (`class/lab3/fork_proc_module/fork_procfile.c`): a
  one-record stream over the most recent fork event. `start` asks
  `get_last_fork_record` and ends the sequence when it returns -1. `show` prints
  the `Fork_info` record (`class/lab3/fork_info.h`) with
  `"flags = 0x%08lX, user = %5d, ppid = %5d, cpid = %5d, comm = %8s, return = %ld\n"`.

Everything is pure: iterator callbacks are functions from the source snapshot
and the position to a `Step` (new position and optional record); the formatter
is a function from a record to a string.

Modules, one per file:

| file | module | models |
|---|---|---|
| `wrappers.dfy` | `Wrappers` | `Option` (a record pointer or NULL) |
| `c_types.dfy` | `CTypes` | `u8`, `u16`, `i32`, `u64`, `i64` as integer ranges (LP64) |
| `numerals.dfy` | `Numerals` | digit strings in base 10 and 16, their read-back, signed decimals |
| `printf.dfy` | `Printf` | the conversions `%lu`, `%0<w>lX`, `%<w>d`, `%ld`, `%<w>s` on a char array |
| `fork_info.dfy` | `ForkRecord` | the `Fork_info` record with range-restricted fields |
| `seq_file.dfy` | `SeqFile` | the iterator step: position plus optional record |
| `call_counter.dfy` | `CallCounter` | start/next/stop/show of the counter file |
| `fork_procfile.dfy` | `ForkProcfile` | start/next/stop/show of the fork file |
| `fork_line.dfy` | `ForkLine` | a reader for the fork line, used as the formatter's inverse |
| `session.dfy` | `Session` | walks, chunked reads that resume from a saved position, and a read-until-empty driver |

The chunked driver `Session.Read` is an abstraction of the kernel's `seq_read`.
It calls `start` at the saved position. It then calls `show` and `next` until
`next` reports the end or a budget of records is spent, and then calls `stop`.
It returns the position left by the last `next`. It does not model the
kernel's byte buffers.

## Model

| member | source | states |
|---|---|---|
| `CallCounter.Start` | class_proc_module/call_counter_procfile.c:47-51 | end of sequence exactly when the position is at least 550; otherwise the counter at that position; the position is not changed |
| `CallCounter.Next` | class_proc_module/call_counter_procfile.c:62-69 | the position grows by exactly one; end of sequence exactly when the new position is at least 550; otherwise the counter at the new position |
| `CallCounter.NextIsStartOfSuccessor` | class_proc_module/call_counter_procfile.c:47-69 | `next` at p gives the same result as `start` at p+1, so only the integer position needs to be kept between reads |
| `CallCounter.Stop` | class_proc_module/call_counter_procfile.c:81-84 | the table and the position are left unchanged |
| `CallCounter.Show` | class_proc_module/call_counter_procfile.c:95-98 | the line is the counter's shortest decimal numeral (no leading zero unless the counter is 0) followed by one newline; reading the digits back gives the counter; at most 21 bytes |
| `CallCounter.ShowInjective` | class_proc_module/call_counter_procfile.c:97 | distinct counter values print as distinct lines |
| `CallCounter.ShowExamples` | class_proc_module/call_counter_procfile.c:97 | counters 5, 0 and 42 print as "5\n", "0\n" and "42\n" |
| `Printf.UnsignedDecimal` | class_proc_module/call_counter_procfile.c:97 | `%lu` of a 64-bit value is 1 to 20 decimal digits with no leading zero (except the single digit of 0) that read back as the value |
| `Session.WalkCounters` | class_proc_module/call_counter_procfile.c:47-69 | start at any position followed by next until end shows exactly the counters from that position to 549, each with its own position, in order |
| `Session.FullWalk` | class_proc_module/call_counter_procfile.c:20-69 | a walk from position 0 shows 550 records, the i-th being counter i at position i: each position once, ascending, then the end |
| `Session.WalkStep` | class_proc_module/call_counter_procfile.c:62-69 | a walk at p below 550 is the counter at p followed by the walk at p+1; at 550 or beyond it is empty |
| `Session.StopAndResume` | class_proc_module/call_counter_procfile.c:40-69 | stopping after k records and starting again at position p+k shows the rest of the uninterrupted walk, with no record skipped or repeated |
| `Session.FillCounters` | class_proc_module/call_counter_procfile.c:55-84 | from the record at p, show and next show min(budget, records left) records, keep the position just past them, and leave exactly the rest of the walk |
| `Session.ReadCounters` | class_proc_module/call_counter_procfile.c:40-84 | one read shows the next min(budget, remaining) counters and keeps the position just past them; the next read from there continues the walk exactly |
| `Session.WalkLength` | class_proc_module/call_counter_procfile.c:47-69 | a walk from p shows 550-p records, or none when p is 550 or more |
| `Session.ReadAll` | class_proc_module/call_counter_procfile.c:40-98 | reading until a read returns nothing yields every counter line exactly once, in order, for any per-read budget |
| `Session.TextAppend` | class_proc_module/call_counter_procfile.c:88-98 | the bytes of two consecutive runs of shown records are the bytes of the first run followed by those of the second |
| `ForkProcfile.Start` | class/lab3/fork_proc_module/fork_procfile.c:46-50 | end of sequence exactly when the backend reports -1; otherwise the backend's record; the position is neither read nor changed |
| `ForkProcfile.StartIgnoresPosition` | class/lab3/fork_proc_module/fork_procfile.c:46-50 | start gives the same answer at every position for the same backend state |
| `ForkProcfile.Next` | class/lab3/fork_proc_module/fork_procfile.c:62-82 | next (an empty body in the source) ends the sequence and leaves the position alone |
| `ForkProcfile.Stop` | class/lab3/fork_proc_module/fork_procfile.c:94-97 | the record slot and the position are left unchanged |
| `ForkProcfile.Show` | class/lab3/fork_proc_module/fork_procfile.c:119-123 | the line starts with "flags = 0x" and ends with a newline |
| `ForkProcfile.FieldWidths` | class/lab3/fork_info.h:6-11 | each field is at least its format width and at most what its C type's widest value needs: flags 8-16, user exactly 5, pids 5-11, comm 8-16, return 1-20 |
| `ForkProcfile.ShowLength` | class/lab3/fork_proc_module/fork_procfile.c:119-123 | every fork line is between 90 and 137 bytes long |
| `ForkProcfile.BashForkLine` | class/lab3/fork_proc_module/fork_procfile.c:119-123 | the record for `bash` (uid 1000, pid 100, child 101, flags 0x11, return 0) prints as "flags = 0x00000011, user =  1000, ppid =   100, cpid =   101, comm =     bash, return = 0\n" |
| `ForkLine.ShowRoundTrip` | class/lab3/fork_proc_module/fork_procfile.c:119-123 | reading a printed line gives back flags, user, ppid, cpid and the return value, and the printed comm field, in that order; bytes of `command_name` after its first NUL, and leading spaces versus padding, are not recovered |
| `ForkProcfile.ShowHidesBytesAfterNul` | class/lab3/fork_proc_module/fork_procfile.c:119-123 | `%8s` stops at the first NUL: records equal except for `command_name` bytes after its first NUL print the same line |
| `ForkProcfile.NulTailExample` | class/lab3/fork_proc_module/fork_procfile.c:119-123 | the distinct records with command bytes "b" then NULs and "b", NUL, "x" print one and the same line |
| `ForkProcfile.LeadingSpaceExample` | class/lab3/fork_proc_module/fork_procfile.c:119-123 | the commands " b" and "b" both print as the comm field "       b": leading spaces merge with the padding |
| `Numerals.SignedDecimal` | class/lab3/fork_proc_module/fork_procfile.c:119-123 | `%d`/`%ld` text: a '-' exactly for negatives, then decimal digits with no leading zero except for 0 itself |
| `ForkLine.ParseHexField` | class/lab3/fork_proc_module/fork_procfile.c:119-121 | the `%08lX` field reads back as the flags and ends where the next label begins |
| `ForkLine.ParseDecimalField` | class/lab3/fork_proc_module/fork_procfile.c:119-122 | a space-padded `%5d` field reads back as its value and ends where the next label begins |
| `ForkLine.ParseTail` | class/lab3/fork_proc_module/fork_procfile.c:119-123 | the text after "comm = " splits back into the comm field and the `%ld` return value, with the single trailing newline removed |
| `ForkLine.CommFieldText` | class/lab3/fork_proc_module/fork_procfile.c:119-123 | removing the padding of the comm field gives the command text, unless that text itself starts with a space |
| `Session.WalkFork` | class/lab3/fork_proc_module/fork_procfile.c:46-82 | the fork stream is the single record when the backend has one, and empty when it reports -1 |
| `Session.ReadForkRepeats` | class/lab3/fork_proc_module/fork_procfile.c:46-82 | every read, whatever position was saved, shows the same single record and keeps the position, so a second read shows the record again |
| `Printf.HexZeroPadded` | class/lab3/fork_proc_module/fork_procfile.c:119-121 | `%08lX` gives upper-case hex digits reading back as the value, zero-padded to at least 8, never truncated, and with no leading zero beyond the width |
| `Printf.DecimalField` | class/lab3/fork_proc_module/fork_procfile.c:119-122 | `%5d` gives the signed decimal right-justified with spaces to at least 5, never truncated; it reads back as the value once the spaces are removed |
| `Printf.StringField` | class/lab3/fork_proc_module/fork_procfile.c:119-123 | `%8s` gives the C string of the array right-justified with spaces to at least 8 characters |
| `Printf.CString` | class/lab3/fork_info.h:10 | the bytes `%s` reads from `command_name`: everything before the first NUL, or all 16 bytes when there is no NUL |
| `Printf.PadLeft` | class/lab3/fork_proc_module/fork_procfile.c:119-120 | right-justification: the length is max(text, width), the text is at the end, and fill characters come before it |
| `Printf.StripPadLeft` | class/lab3/fork_proc_module/fork_procfile.c:119-120 | removing the fill characters undoes right-justification of a text that does not start with the fill |
| `Numerals.Digits` | class_proc_module/call_counter_procfile.c:97 | the shortest digit string of a number: non-empty, all digits of the base, no leading zero except for 0 itself |
| `Numerals.ValueOfDigits` | class_proc_module/call_counter_procfile.c:97 | reading the printed digits back gives the number |
| `Numerals.SignedDecimalRoundTrip` | class/lab3/fork_proc_module/fork_procfile.c:119-123 | a signed decimal (a '-' only when negative) reads back as the integer |
| `Numerals.ValueIgnoresLeadingZeros` | class/lab3/fork_proc_module/fork_procfile.c:119-121 | zero padding does not change the value of the hex field |
| `Numerals.DigitsLength` | class/lab3/fork_proc_module/fork_procfile.c:119-123 | a number below base^k prints in at most k digits |
| `Numerals.SignedDecimalLength` | class/lab3/fork_proc_module/fork_procfile.c:119-123 | a signed decimal of magnitude below 10^k takes at most k digits and a sign |

## Left out

- Module init and exit, `proc_create`, `remove_proc_entry`, `proc_set_user`, `proc_set_size` and the `file_operations` tables: kernel registration with no record logic.
- The kernel's `seq_read` and `seq_lseek` buffer handling. `Session.Read` stands in for `seq_read`: the budget counts records, not bytes, and the first record of a read is always shown, because the kernel enlarges its buffer until that record fits.
- The fix-up that newer kernels apply when `next` does not advance the position. The driver keeps the position `next` returned.
- The consumer program `class/lab3/format_program/format_program.c`: it only opens, reads and prints the file.
- The backends, which live outside these files: `call_counters[]` is an input table, and `get_last_fork_record` is an input `Option` (None where it returns -1).
- Concurrency. Counters are written by other CPUs during a read, and the static `fork_record` is overwritten without a lock. Every read is modelled on a snapshot.
- Positions are `nat`. `seq_read` never hands a negative `loff_t` to `start`, and the counter walk ends at 550, far below the `loff_t` limit.
- The `int` return value of `seq_printf` and of the show functions. Overflow of the output buffer is the driver's concern.
- The commented-out template code in `fork_procfile.c`.
- The line break inside the format string literal in `fork_procfile.c`. That is not valid C, so the model prints the intended single line, with `", cpid = "` directly after the ppid field.
- `%8s` reads past the end of a `command_name` with no NUL (undefined behaviour). The model stops at the 16th byte.
- Bytes of `command_name` are shown as the characters with the same code (Latin-1). No character encoding is modelled.
- The counter file shows the fixed `num_counters = 550` records (`call_counter_procfile.c:20`); a position at or past 550 gives an empty walk.
- `fork_seq_start` never reads `*record_number` and `fork_seq_next` never advances it, so every read shows the record again (`Session.ReadForkRepeats`).
- `ForkProcfile.Next`: the source body is empty. Falling off the end of a non-void function leaves the return value undefined. The model completes it as "end of sequence", the only reading that fits its doc comment and a single-record source.
