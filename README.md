# can-record, modelled in Dafny

`can-record` records the frames of a SocketCAN interface into a CSV file for a given
number of seconds. This project models the sequential logic of its one source file,
`can-record.c`, in three parts.

1. **Startup.** `main` checks its arguments and then calls the operating system in a
   fixed order. The checks are the argument count and the parsed duration, then
   `access` for an existing output file, then `creat`, `socket`, `ioctl` and `bind`.
   A failure returns `EINVAL`, `EEXIST` or `EIO` before any later call. `Startup.Start` is this
   decision procedure. The answers of the operating system are its inputs, and it
   returns the exit code, or the entry into the loop, together with the calls made.
2. **Recording.** The header row `headRow` goes to the file once. `firstTimestamp` is
   taken once. Then every frame read becomes one row, formatted by `printFormat`. The
   row is written to the file, and the same text to the console. `Recorder.Record` is
   that loop, run over a finite sequence of receptions. Each reception is a frame and
   the clock reading taken right after it. `Csv.Row` formats one row. `Csv.ParseRow`
   reads such a row back, and `Csv.RowRoundTrip` proves that every row reads back
   through `ParseRow` as its eleven fields.
3. **Time.** `getMicrosecond` computes `tv_sec * 1000000 + tv_nsec / 1000` in
   `unsigned long long`. Each row's timestamp is that value minus `firstTimestamp`,
   also in `unsigned long long`. `Clock` writes out the wrap-around modulo 2^64 and the
   truncating division.

`Session.RunMain` puts the parts together as `main`. It returns the exit code, the
calls made, the file created (if any) and the console text.

Modules: `CTypes` (C integer widths), `Clock`, `Text` (split, join, concatenation of
lines, decimal numerals), `Csv`, `Startup`, `Recorder`, `Session`.

Stated assumptions:
- The exit codes are the Linux `errno` values: `EIO` = 5, `EEXIST` = 17, `EINVAL` = 22.
- `time_t` and `long` are 64-bit. `can_id` is 32-bit unsigned. `can_dlc` and the payload
  bytes are 8-bit unsigned.
- The file and console contents are modelled as text (sequences of characters). The
  header's 'μ' is one character of that text.
- The timestamp is passed as an `unsigned long long` to a `%u` conversion. That is a
  varargs type mismatch. The model prints the full 64-bit timestamp value. On a 64-bit
  target `%u` usually prints only the low 32 bits, which wrap after about 71.6 minutes of
  recording. On 32-bit ARM the 64-bit argument is aligned to an even register pair. For
  `dprintf` (descriptor in r0, format in r1) the timestamp fills r2:r3, so its first `%u`
  prints the low word and every later field shifts by one. For `printf` (format in r0)
  r1 is skipped, so the first `%u` prints an unspecified word and every later field
  shifts by two. There the file and the console differ. Both the timestamp field of
  `Csv.RowRoundTrip` and the equality `file == HEAD_ROW + console` of `Recorder.Record`
  rest on this stated assumption.
- `can_id` is printed raw. Nothing decodes the extended, RTR or error flags, and
  nothing masks the identifier. All eight payload bytes are printed whatever `can_dlc`
  says.

The code treats a `creat` descriptor of 0 as a failure (`targetFile <= 0`). It then
returns `EIO` although the file has been created. The model follows the code, and
`Startup.CreatZeroIsFailure` states the consequence. The timer thread that ends the run after `duration` seconds is left out (see below).
`can-record.c` does no bitrate handling and no flag decoding, so neither is modelled.

## Model

| member | source | states |
|---|---|---|
| `Startup.Start` | can-record.c:30-91 | The calls made are always a prefix of access, creat, socket, ioctl, bind. Startup exits exactly when it stopped before `bind` or `bind` failed. |
| `Startup.InvalidArgumentsTouchNothing` | can-record.c:34-53 | `EINVAL` is returned exactly when there are fewer than 4 arguments or the duration is not positive. In that case no file or socket call is made. |
| `Startup.ExistingFileIsLeftAlone` | can-record.c:55-59 | `EEXIST` is returned exactly when the arguments are valid and the file exists. Only `access` has been called, so no file is created or truncated. |
| `Startup.StopsAtFirstFailure` | can-record.c:55-91 | Given valid arguments, the calls follow the fixed order and every call but the last succeeded. Startup exits exactly when the last call failed, with `EEXIST` for `access` and `EIO` otherwise. It enters the loop only after all five calls, with the descriptors `creat` and `socket` returned. |
| `Startup.ExitCodes` | can-record.c:52-91 | The only exit codes startup returns are `EINVAL`, `EEXIST` and `EIO`. |
| `Startup.CreatZeroIsFailure` | can-record.c:63-68 | A `creat` result of 0 returns `EIO` before `socket`, although the file was created. |
| `Clock.GetMicrosecondExact` | can-record.c:128-133 | For a normalised reading that does not overflow 64 bits, the result is the exact whole-microsecond count. Dividing it by 10^6 gives back `tv_sec`. The remainder is `tv_nsec / 1000`. |
| `Clock.TruncatesWithinMicrosecond` | can-record.c:132 | Two readings in the same second whose nanoseconds fall in the same microsecond give the same value. |
| `Clock.ElapsedRoundTrip` | can-record.c:103 | Adding the relative timestamp to `firstTimestamp` modulo 2^64 gives back the reading, even when the subtraction wrapped. A reading behind `firstTimestamp` gives the difference plus 2^64. |
| `Recorder.StampIsDifference` | can-record.c:98-103 | When the clock has not gone behind the first reading, a row's timestamp is the plain difference of the two `getMicrosecond` values. |
| `Text.DecimalRoundTrip` | can-record.c:23 | Reading back the `%u` numeral of n gives n. |
| `Text.NumeralIsDecimal` | can-record.c:23 | Every decimal numeral without a leading zero is the `%u` rendering of its value, so the rendering is canonical. |
| `Csv.RowRoundTrip` | can-record.c:104-108 | A data row reads back as exactly 11 unsigned decimal fields. In order they are the timestamp, the raw `can_id`, `can_dlc` and `data[0]` to `data[7]`. |
| `Csv.RowIsOneLine` | can-record.c:23 | A data row ends in CRLF. Every character before it is a digit or a comma. |
| `Csv.HeaderColumns` | can-record.c:22 | The header ends in CRLF. Its text splits at the commas into the 11 column titles, one per data field. |
| `Csv.HeaderIsOneLine` | can-record.c:22 | The header holds no line feed before its last character, and it starts with 'T'. |
| `Recorder.Record` | can-record.c:96-114 | The file is the header followed by the rows of the receptions, in reception order. The console holds the same rows, so the file is the header followed by exactly the console text. All rows are timed against the one `firstTimestamp`. |
| `Recorder.RecordLoop` | can-record.c:100-114 | Starting from any file contents, the loop appends the rows of the receptions, in order, to the file, and the same rows to the console. |
| `Recorder.FileLines` | can-record.c:96-114 | After k receptions the file is k + 1 lines, each ended by a line feed. The header comes first, then the k rows in reception order, with nothing after the last one. |
| `Recorder.FileRowsReadBack` | can-record.c:100-108 | Each data line of the file differs from the header line, so the header occurs exactly once. Each data line reads back as the 11 fields of its own frame. Its first field is the time since `firstTimestamp`. |
| `Session.RunMain` | can-record.c:30-114 | `main` makes the calls startup makes. On an exit it returns that code and prints no row. It leaves an empty new file if `creat` returned a descriptor, and leaves the path untouched otherwise. When recording, the file and the console are exactly what the loop produces. |

## Left out

- The timer thread, `sleep`, "Done!" and `exit(EXIT_SUCCESS)` (lines 93-94, 120-126): concurrency and process termination. The loop is run over a finite sequence of receptions. A run that reaches the loop therefore has no exit code in the model.
- The `pthread_cancel` and `EXIT_FAILURE` tail (lines 116-117): unreachable after `while (1)`.
- `access`, `creat`, `socket`, `ioctl`, `bind`, `read`, `write`, `dprintf` and `printf` as real I/O. Their results are inputs, and so are the frames read.
- The result of `read` is not examined by the program. A reception's frame is whatever `read` left in `frame`, supplied as an input. Short reads and read errors are not modelled separately.
- The results of `write`, `dprintf` and `printf` are ignored by the program. The model takes every write to be complete.
- `atoi` (line 48): the parsed duration is an input integer.
- `clock_gettime` (line 131): the clock readings are inputs. `CLOCK_REALTIME` can go backwards, so no ordering of timestamps is claimed. `Clock.ElapsedRoundTrip` covers the wrapped case instead.
- `strcpy` into `ifr.ifr_name` and the `ioctl` interface lookup (lines 79-84): a fixed-size foreign buffer, and a result the program does not check.
- The permission bits passed to `creat`, and the usage, example, "Recording to" and `perror` text (lines 36-43, 57, 61, 66, 73, 89).
- The byte encoding of the text. The file holds the UTF-8 encoding of the header, in which 'μ' takes two bytes, and `write(targetFile, headRow, sizeof(headRow) - 1)` writes exactly those bytes without the terminating NUL. The model writes the header as text and does not prove the byte count.
- `Clock.GetMicrosecond`: its value in the general case (negative or out-of-range fields, overflow past 2^64) is the defining expression. Properties are proved only for normalised readings that do not overflow.
- `Session.RunMain`: the file, the console and stderr are separate texts. The lowest free descriptor is what `creat` returns, so with stdout or stderr closed at start it can return 1 or 2. Console text ("Recording to" and every `printf` row) or `perror` text would then go into the file, and the model does not capture that: its empty file on an exit and its `FileText` file when recording assume a descriptor above 2.
